/** The blitter's words bit by bit: what the shifters, the masks and the minterms do to each of them. */
module BlitterBits {
  import opened BlitterWords

  function HalfOf(x: bv32): bv32 {
    x >> 1
  }

  function Halved(l: Long): Long {
    Long(HalfOf(l.v))
  }

  function Doubled(l: Long): Long {
    Long(l.v << 1)
  }

  /** 1 << i. */
  function MaskAt(i: nat): Long {
    if i == 0 then Long(1) else Doubled(MaskAt(i - 1))
  }

  predicate LongBit(l: Long, i: nat) {
    Both(l, MaskAt(i)) != Long(0)
  }

  predicate WordBit(w: Word, i: nat) {
    LongBit(Wide(w), i)
  }

  // ---------- masks ----------

  function Raised(l: Long): Long {
    Long(l.v << 16)
  }

  lemma RaisedDoubled(m: Long)
    ensures Doubled(Raised(m)) == Raised(Doubled(m))
  {
  }

  lemma HighMask()
    ensures MaskAt(16) == Raised(Long(1))
  {
    assert MaskAt(4) == Long(0x10);
    assert MaskAt(8) == Long(0x100);
    assert MaskAt(12) == Long(0x1000);
  }

  lemma {:induction false} AboveWord(i: nat)
    ensures MaskAt(i + 16) == Raised(MaskAt(i))
  {
    hide Doubled, Raised;
    if i == 0 {
      HighMask();
    } else {
      AboveWord(i - 1);
      RaisedDoubled(MaskAt(i - 1));
    }
  }

  /** The mask of a bit of a word. */
  predicate InWord(m: Long) {
    0 < m.v < 0x10000
  }

  lemma WordMasks()
    ensures InWord(MaskAt(0)) && InWord(MaskAt(1)) && InWord(MaskAt(2)) && InWord(MaskAt(3))
    ensures InWord(MaskAt(4)) && InWord(MaskAt(5)) && InWord(MaskAt(6)) && InWord(MaskAt(7))
    ensures InWord(MaskAt(8)) && InWord(MaskAt(9)) && InWord(MaskAt(10)) && InWord(MaskAt(11))
    ensures InWord(MaskAt(12)) && InWord(MaskAt(13)) && InWord(MaskAt(14)) && InWord(MaskAt(15))
  {
    assert MaskAt(4) == Long(0x10);
    assert MaskAt(8) == Long(0x100);
    assert MaskAt(12) == Long(0x1000);
  }

  lemma WordMask(i: nat)
    requires i < 16
    ensures InWord(MaskAt(i))
  {
    hide MaskAt, InWord;
    WordMasks();
  }

  /** A mask has a single bit, so what it selects is all or nothing. */
  lemma {:induction false} AllOrNothing(l: Long, i: nat)
    ensures Both(l, MaskAt(i)) == Pick(LongBit(l, i), MaskAt(i))
    decreases i
  {
    hide Doubled, Halved, Both;
    if i == 0 {
      FirstOnly(l);
    } else {
      AllOrNothing(Halved(l), i - 1);
      NextOnly(l, MaskAt(i - 1));
    }
  }

  lemma FirstOnly(l: Long)
    ensures Both(l, Long(1)) == Long(0) || Both(l, Long(1)) == Long(1)
  {
  }

  lemma NextOnly(l: Long, m: Long)
    ensures Both(Halved(l), m) == Long(0) ==> Both(l, Doubled(m)) == Long(0)
    ensures Both(Halved(l), m) == m ==> Both(l, Doubled(m)) == Doubled(m)
  {
  }

  // ---------- shifting right ----------

  lemma HalvedBit(l: Long, m: Long)
    ensures Both(Halved(l), m) != Long(0) <==> Both(l, Doubled(m)) != Long(0)
  {
  }

  lemma ShiftsOnce(x: bv32)
    ensures x >> 0 == x && x >> 1 == (x >> 0) >> 1 && x >> 2 == (x >> 1) >> 1 && x >> 3 == (x >> 2) >> 1
    ensures x >> 4 == (x >> 3) >> 1 && x >> 5 == (x >> 4) >> 1 && x >> 6 == (x >> 5) >> 1 && x >> 7 == (x >> 6) >> 1
    ensures x >> 8 == (x >> 7) >> 1 && x >> 9 == (x >> 8) >> 1 && x >> 10 == (x >> 9) >> 1
    ensures x >> 11 == (x >> 10) >> 1 && x >> 12 == (x >> 11) >> 1 && x >> 13 == (x >> 12) >> 1
    ensures x >> 14 == (x >> 13) >> 1 && x >> 15 == (x >> 14) >> 1 && x >> 16 == (x >> 15) >> 1
  {
  }

  lemma OneMore(x: bv32, n: nat)
    requires 0 < n <= 16
    ensures x >> n == (x >> (n - 1)) >> 1
  {
    ShiftsOnce(x);
    if n <= 8 {
      if n == 1 {} else if n == 2 {} else if n == 3 {} else if n == 4 {}
      else if n == 5 {} else if n == 6 {} else if n == 7 {} else {}
    } else {
      if n == 9 {} else if n == 10 {} else if n == 11 {} else if n == 12 {}
      else if n == 13 {} else if n == 14 {} else if n == 15 {} else {}
    }
  }

  lemma OneMoreBits(x: bv32, n: nat)
    requires 0 < n <= 16
    ensures RightBits(x, n) == HalfOf(RightBits(x, n - 1))
  {
    OneMore(x, n);
  }

  lemma NoneBits(x: bv32)
    ensures RightBits(x, 0) == x
  {
  }

  /** Shifting is halving, step by step. */
  lemma RightOnce(l: Long, n: nat)
    requires n <= 16
    ensures if n == 0 then Right(l, n) == l else Right(l, n) == Halved(Right(l, n - 1))
  {
    hide RightBits, HalfOf;
    if n == 0 {
      NoneBits(l.v);
    } else {
      OneMoreBits(l.v, n);
    }
  }

  /** Bit i of l >> n is bit i + n of l. */
  lemma {:induction false} RightBit(l: Long, n: nat, i: nat)
    requires n <= 16
    ensures LongBit(Right(l, n), i) == LongBit(l, i + n)
    decreases n
  {
    hide Right, Halved, Doubled, Both;
    RightOnce(l, n);
    if n > 0 {
      HalvedBit(Right(l, n - 1), MaskAt(i));
      RightBit(l, n - 1, i + 1);
    }
  }

  // ---------- two words side by side ----------

  lemma JoinedLow(hi: Word, lo: Word, m: Long)
    requires InWord(m)
    ensures Both(Joined(hi, lo), m) == Both(Wide(lo), m)
  {
  }

  lemma JoinedHigh(hi: Word, lo: Word, m: Long)
    ensures InWord(m) ==> (Both(Joined(hi, lo), Raised(m)) == Long(0) <==> Both(Wide(hi), m) == Long(0))
  {
  }

  lemma JoinedBit(hi: Word, lo: Word, i: nat)
    requires i < 32
    ensures LongBit(Joined(hi, lo), i) == if i < 16 then WordBit(lo, i) else WordBit(hi, i - 16)
  {
    hide Joined, Both, Raised, MaskAt, InWord, Wide;
    var k := if i < 16 then i else i - 16;
    WordMask(k);
    AboveWord(k);
    JoinedLow(hi, lo, MaskAt(k));
    JoinedHigh(hi, lo, MaskAt(k));
  }

  lemma LowMask(l: Long, m: Long)
    requires InWord(m)
    ensures Both(Wide(Low(l)), m) == Both(l, m)
  {
  }

  lemma LowBit(l: Long, i: nat)
    requires i < 16
    ensures WordBit(Low(l), i) == LongBit(l, i)
  {
    hide Low, Both, MaskAt, InWord, Wide;
    WordMask(i);
    LowMask(l, MaskAt(i));
  }

  // ---------- the laws ----------

  /** The barrel shifters: ascending, every bit moves down by the shift and the top ones come from the previous word;
      descending, up, and the bottom ones come from it. */
  lemma HeldBit(desc: bool, prev: Word, cur: Word, shift: nat, i: nat)
    requires shift < 16 && i < 16
    ensures LongBit(Hold(desc, prev, cur, shift), i) ==
      if desc then (if i >= shift then WordBit(cur, i - shift) else WordBit(prev, 16 - shift + i))
      else if i + shift < 16 then WordBit(cur, i + shift) else WordBit(prev, i + shift - 16)
  {
    hide LongBit, WordBit, Right, Joined;
    if desc {
      RightBit(Joined(cur, prev), 16 - shift, i);
      JoinedBit(cur, prev, 16 - shift + i);
    } else {
      RightBit(Joined(prev, cur), shift, i);
      JoinedBit(prev, cur, i + shift);
    }
  }

  lemma AndWide(a: Word, b: Word)
    ensures Wide(And(a, b)) == Both(Wide(a), Wide(b))
  {
  }

  lemma NotZero(i: nat)
    requires i < 16
    ensures MaskAt(i) != Long(0)
  {
    hide MaskAt;
    WordMask(i);
  }

  lemma AndBit(a: Word, b: Word, i: nat)
    requires i < 16
    ensures WordBit(And(a, b), i) == (WordBit(a, i) && WordBit(b, i))
  {
    hide And, Wide, Both, MaskAt, Either;
    var m := MaskAt(i);
    AndWide(a, b);
    NotZero(i);
    AllOrNothing(Wide(a), i);
    AllOrNothing(Wide(b), i);
    BothUniform(Wide(a), Wide(b), m, WordBit(a, i), WordBit(b, i));
  }

  /** Every result bit is the bit of the minterm byte that the bits of A, B and C select. */
  lemma MintermBit(a: Long, b: Long, c: Long, mt: bv8, i: nat)
    requires i < 16
    ensures LongBit(BlitFunc(a, b, c, mt), i) == Has(mt, TermBit(LongBit(a, i), LongBit(b, i), LongBit(c, i)))
  {
    hide BlitFunc, TermBit, MaskAt, Has, Both;
    var m := MaskAt(i);
    AllOrNothing(a, i);
    AllOrNothing(b, i);
    AllOrNothing(c, i);
    MintermSelects(a, b, c, mt, m, LongBit(a, i), LongBit(b, i), LongBit(c, i));
    NotZero(i);
  }
}
