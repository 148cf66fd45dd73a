/** What a line leaves in memory, bit by bit: which texture bit each pixel gets, and what happens to every other bit. */
module LineMeaning {
  import opened BlitterWords
  import opened BlitterBits
  import opened BlitterLine
  import Blit

  // ---------- the texture ----------

  /** The bit of the texture a line starts with that pixel n is drawn with: bit 0, then 15, 14 and so on. */
  function PatternIndex(n: nat): (i: nat)
    ensures i < 16
  {
    (16 - n % 16) % 16
  }

  predicate PatternBit(l: Line, n: nat) {
    WordBit(l.b, PatternIndex(n))
  }

  /** Rotating moves every bit up by one and the top one to the bottom. */
  lemma RotatedMasks(w: Word, m: Long)
    ensures 0 < m.v < 0x8000 ==>
              (Both(Wide(RotatedLeft(w)), Doubled(m)) != Long(0) <==> Both(Wide(w), m) != Long(0))
    ensures Both(Wide(RotatedLeft(w)), Long(1)) != Long(0) <==> Both(Wide(w), Long(0x8000)) != Long(0)
  {
  }

  predicate BelowTop(m: Long) {
    0 < m.v < 0x8000
  }

  lemma LowerMasks()
    ensures BelowTop(MaskAt(0)) && BelowTop(MaskAt(1)) && BelowTop(MaskAt(2)) && BelowTop(MaskAt(3))
    ensures BelowTop(MaskAt(4)) && BelowTop(MaskAt(5)) && BelowTop(MaskAt(6)) && BelowTop(MaskAt(7))
    ensures BelowTop(MaskAt(8)) && BelowTop(MaskAt(9)) && BelowTop(MaskAt(10)) && BelowTop(MaskAt(11))
    ensures BelowTop(MaskAt(12)) && BelowTop(MaskAt(13)) && BelowTop(MaskAt(14)) && MaskAt(15) == Long(0x8000)
  {
    assert MaskAt(4) == Long(0x10);
    assert MaskAt(8) == Long(0x100);
    assert MaskAt(12) == Long(0x1000);
  }

  lemma RotatedBit(w: Word, i: nat)
    requires i < 16
    ensures WordBit(RotatedLeft(w), i) == WordBit(w, if i == 0 then 15 else i - 1)
  {
    LowerMasks();
    assert MaskAt(0) == Long(1);
    hide RotatedLeft, Both, Wide;
    if i == 0 {
      RotatedMasks(w, Long(1));
    } else {
      RotatedMasks(w, MaskAt(i - 1));
      assert BelowTop(MaskAt(i - 1));
    }
  }

  lemma FirstIndex()
    ensures PatternIndex(0) == 0
  {
  }

  lemma IndexStep(n: nat, i: nat)
    requires 0 < n && i < 16
    ensures ((if i == 0 then 15 else i - 1) + PatternIndex(n - 1)) % 16 == (i + PatternIndex(n)) % 16
  {
    assert n % 16 == 0 ==> (n - 1) % 16 == 15;
    assert n % 16 != 0 ==> (n - 1) % 16 == n % 16 - 1;
  }

  lemma {:induction false} TextureBit(l: Line, n: nat, i: nat)
    requires i < 16
    ensures WordBit(Texture(l, n), i) == WordBit(l.b, (i + PatternIndex(n)) % 16)
  {
    hide RotatedLeft, WordBit, PatternIndex;
    if n == 0 {
      FirstIndex();
    } else {
      IndexStep(n, i);
      RotatedBit(Texture(l, n - 1), i);
      TextureBit(l, n - 1, if i == 0 then 15 else i - 1);
    }
  }

  // ---------- one dot ----------

  lemma SolidBit(w: Word, i: nat)
    requires i < 16
    ensures WordBit(Solid(w), i) == WordBit(w, 0)
  {
    SolidCases(w);
    NoneSet(i);
    AllSet(i);
  }

  lemma SolidCases(w: Word)
    ensures Solid(w) == if WordBit(w, 0) then Word(0xFFFF) else Word(0)
  {
    assert MaskAt(0) == Long(1);
  }

  lemma NoneSet(i: nat)
    ensures !WordBit(Word(0), i)
  {
    hide MaskAt;
  }

  lemma AllMask(m: Long)
    requires InWord(m)
    ensures Both(Wide(Word(0xFFFF)), m) != Long(0)
  {
  }

  lemma AllSet(i: nat)
    requires i < 16
    ensures WordBit(Word(0xFFFF), i)
  {
    hide MaskAt, Both, Wide, InWord;
    WordMask(i);
    AllMask(MaskAt(i));
  }

  /** Bit i of A, masked and moved to the pixel. */
  predicate InkBit(l: Line, shift: nat, i: nat) {
    i + shift < 16 && WordBit(l.a, i + shift) && WordBit(l.afwm, i + shift)
  }

  lemma NothingAbove(w: Word, m: Long)
    ensures Both(Wide(w), Raised(m)) == Long(0)
  {
  }

  lemma WordEnds(w: Word, i: nat)
    requires i >= 16
    ensures !WordBit(w, i)
  {
    hide Both, Wide, Raised, MaskAt;
    AboveWord(i - 16);
    NothingAbove(w, MaskAt(i - 16));
  }

  lemma InkIs(l: Line, shift: nat, i: nat)
    requires shift < 16 && i < 16
    ensures WordBit(ShiftedRight(And(l.a, l.afwm), shift), i) == InkBit(l, shift, i)
  {
    var w := And(l.a, l.afwm);
    hide Right, Low, And, LongBit, Wide;
    LowBit(Right(Wide(w), shift), i);
    RightBit(Wide(w), shift, i);
    assert WordBit(w, i + shift) == LongBit(Wide(w), i + shift);
    if i + shift < 16 {
      AndBit(l.a, l.afwm, i + shift);
    } else {
      WordEnds(w, i + shift);
    }
  }

  /** Every bit of the stored word is the minterm of ink, texture and memory. */
  lemma DotBit(l: Line, shift: nat, texture: Word, cdat: Word, i: nat)
    requires shift < 16 && i < 16
    ensures WordBit(Dot(l, shift, texture, cdat), i) ==
            Has(l.mt, TermBit(InkBit(l, shift, i), WordBit(texture, 0), WordBit(cdat, i)))
  {
    var a, b, c := Wide(ShiftedRight(And(l.a, l.afwm), shift)), Wide(Solid(texture)), Wide(cdat);
    InkIs(l, shift, i);
    SolidBit(texture, i);
    LowBit(BlitFunc(a, b, c, l.mt), i);
    MintermBit(a, b, c, l.mt, i);
    hide ShiftedRight, Solid, BlitFunc, Low, Wide, LongBit, InkBit, Has, TermBit;
    assert WordBit(ShiftedRight(And(l.a, l.afwm), shift), i) == LongBit(a, i);
    assert WordBit(Solid(texture), i) == LongBit(b, i) && WordBit(cdat, i) == LongBit(c, i);
  }

  /** The usual ink: bit 15 alone, let through by the mask. */
  predicate Usual(l: Line) {
    l.a == Word(0x8000) && WordBit(l.afwm, 15)
  }

  lemma TopAlone(i: nat)
    requires i < 16
    ensures WordBit(Word(0x8000), i) == (i == 15)
  {
    LowerMasks();
    TopMask(MaskAt(i));
  }

  lemma TopMask(m: Long)
    ensures m == Long(0x8000) ==> Both(Wide(Word(0x8000)), m) != Long(0)
    ensures BelowTop(m) ==> Both(Wide(Word(0x8000)), m) == Long(0)
  {
  }

  lemma UsualInk(l: Line, shift: nat, i: nat)
    requires Usual(l) && shift < 16 && i < 16
    ensures InkBit(l, shift, i) <==> i == 15 - shift
  {
    hide WordBit;
    if i + shift < 16 {
      TopAlone(i + shift);
    }
  }

  // ---------- one pixel ----------

  /** The bit of pixel n in its word, and the cell of that word. */
  function SpotBit(l: Line, o: Origin, n: nat): (i: int)
    requires l.dx > 0
    ensures 0 <= i < 16
  {
    15 - (o.shift + PixelAt(l, n).x) % 16
  }

  function SpotCell(l: Line, o: Origin, size: nat, n: nat): (x: nat)
    requires l.dx > 0 && size > 0
    ensures x < size
  {
    var p := PixelAt(l, n);
    (o.cpt + p.y * l.cmod + 2 * ((o.shift + p.x) / 16)) % 0x1_0000_0000 / 2 % size
  }

  /** The result for pixel n: its own bit is the minterm of 1, its texture bit and the bit in memory, every other one
      that of 0, the texture bit and the bit in memory; with any other A, of the ink that falls on it. */
  lemma PlotBits(l: Line, o: Origin, c: Canvas, n: nat, i: nat)
    requires l.dx > 0 && |c.mem| > 0 && i < 16
    ensures var r := Plot(l, o, c, n);
      var old0 := if l.useC then c.mem[SpotCell(l, o, |c.mem|, n)] else c.cdat;
      && (WordBit(r.ddat, i) ==
            Has(l.mt, TermBit(InkBit(l, 15 - SpotBit(l, o, n), i), PatternBit(l, n), WordBit(old0, i))))
      && (Usual(l) ==>
            WordBit(r.ddat, i) ==
            Has(l.mt, TermBit(i == SpotBit(l, o, n), PatternBit(l, n), WordBit(old0, i))))
  {
    hide Dot, WordBit, InkBit, Texture, PixelAt, TermBit, Has, Drawn, Usual;
    PlotFields(l, o, c, n);
    var shift := BitOf(o.shift, PixelAt(l, n));
    DotBit(l, shift, Texture(l, n), Plot(l, o, c, n).cdat, i);
    TextureBit(l, n, 0);
    if Usual(l) {
      UsualInk(l, shift, i);
    }
  }

  // ---------- the whole line ----------

  /** With A clear the minterms pass memory through. */
  predicate Transparent(mt: bv8) {
    mt & 0x0F == 0x0A
  }

  lemma TransparentBit(mt: bv8, b: bool, c: bool)
    requires Transparent(mt)
    ensures Has(mt, TermBit(false, b, c)) == c
  {
  }

  /** Bit i of a cell after n pixels, one bit at a time: a drawn pixel changes its own bit and no other. */
  predicate Painted(l: Line, o: Origin, mem: seq<Word>, n: nat, cell: nat, i: nat)
    requires l.dx > 0 && cell < |mem| && i < 16
  {
    if n == 0 then WordBit(mem[cell], i) else
      var before := Painted(l, o, mem, n - 1, cell, i);
      if Drawn(l, n - 1) && cell == SpotCell(l, o, |mem|, n - 1) && i == SpotBit(l, o, n - 1) then
        Has(l.mt, TermBit(true, PatternBit(l, n - 1), before))
      else before
  }

  /** A line in the usual set-up, drawn from the word it starts in: its pixels get their minterm, and no other bit of
      memory changes. */
  lemma {:induction false} LineMeans(l: Line, o: Origin, c: Canvas, n: nat, cell: nat, i: nat)
    requires l.dx > 0 && |c.mem| > 0 && l.useC && Usual(l) && Transparent(l.mt) && o.dpt == o.cpt
    requires o.cpt < 0x1_0000_0000 && o.shift < 16 && cell < |c.mem| && i < 16
    ensures WordBit(Plotted(l, o, c, n).mem[cell], i) == Painted(l, o, c.mem, n, cell, i)
  {
    hide Plot, WordBit, PatternBit, Drawn, SpotBit, SpotCell, TermBit, Has, Usual, Transparent;
    if n > 0 {
      var d := Plotted(l, o, c, n - 1);
      LineMeans(l, o, c, n - 1, cell, i);
      PixelWritten(l, o, d, n - 1, cell, i);
      PlotBits(l, o, d, n - 1, i);
      TransparentBit(l.mt, PatternBit(l, n - 1), WordBit(d.mem[cell], i));
    }
  }

  lemma PixelWritten(l: Line, o: Origin, c: Canvas, n: nat, cell: nat, i: nat)
    requires l.dx > 0 && |c.mem| > 0 && l.useC && o.dpt == o.cpt
    requires o.cpt < 0x1_0000_0000 && o.shift < 16 && cell < |c.mem| && i < 16
    ensures var r := Plot(l, o, c, n);
      && |r.mem| == |c.mem|
      && r.mem[cell] == if Drawn(l, n) && cell == SpotCell(l, o, |c.mem|, n) then r.ddat else c.mem[cell]
  {
    hide Dot, PixelAt, Drawn;
    PlotFields(l, o, c, n);
    if n == 0 {
      Origin0(l, o);
    }
  }

  /** The usual set-up of a patterned line, minterms 0xCA: the last drawn pixel that falls on a bit leaves its texture
      bit there, and where none falls memory is kept. */
  lemma {:induction false} PatternDrawn(l: Line, o: Origin, c: Canvas, n: nat, k: nat)
    requires l.dx > 0 && |c.mem| > 0 && l.useC && Usual(l) && l.mt == 0xCA && o.dpt == o.cpt
    requires o.cpt < 0x1_0000_0000 && o.shift < 16 && k < n && Drawn(l, k)
    requires forall j: nat :: k < j < n && Drawn(l, j) ==> !SameSpot(l, o, |c.mem|, j, k)
    ensures WordBit(Plotted(l, o, c, n).mem[SpotCell(l, o, |c.mem|, k)], SpotBit(l, o, k)) == PatternBit(l, k)
  {
    hide Plot, Plotted, WordBit, PatternBit, Drawn, SpotBit, SpotCell, Usual;
    LineMeans(l, o, c, n, SpotCell(l, o, |c.mem|, k), SpotBit(l, o, k));
    PaintedLast(l, o, c.mem, n, k);
  }

  predicate SameSpot(l: Line, o: Origin, size: nat, j: nat, k: nat)
    requires l.dx > 0 && size > 0
  {
    SpotCell(l, o, size, j) == SpotCell(l, o, size, k) && SpotBit(l, o, j) == SpotBit(l, o, k)
  }

  lemma {:induction false} PaintedLast(l: Line, o: Origin, mem: seq<Word>, n: nat, k: nat)
    requires l.dx > 0 && |mem| > 0 && l.mt == 0xCA && k < n && Drawn(l, k)
    requires forall j: nat :: k < j < n && Drawn(l, j) ==> !SameSpot(l, o, |mem|, j, k)
    ensures Painted(l, o, mem, n, SpotCell(l, o, |mem|, k), SpotBit(l, o, k)) == PatternBit(l, k)
    decreases n
  {
    hide WordBit, PatternBit, Drawn, SpotBit, SpotCell, PixelAt;
    if k < n - 1 {
      assert Drawn(l, n - 1) ==> !SameSpot(l, o, |mem|, n - 1, k);
      PaintedLast(l, o, mem, n - 1, k);
    }
  }
}
