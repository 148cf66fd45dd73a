/** What a blit does, bit by bit and in closed form: where every word comes from and goes to, and what each of its bits
    is, in terms of the memory and the registers before the blit. */
module BlitMeaning {
  import opened BlitterWords
  import opened BlitterFill
  import opened BlitterBits
  import opened Blit
  import opened RegisterBlits
  import opened PlainCopies

  // ---------- reference: places and bits ----------

  /** The cell of word k, which is word i of row j: words follow each other, rows are a modulo further apart, everything
      backwards in a descending blit; addresses have 32 bits, and memory repeats. */
  function Spot(cfg: Config, ch: Channel, size: nat, k: nat): (c: nat)
    requires size > 0 && cfg.h > 0
    ensures c < size
  {
    var j, i := k / cfg.h, k % cfg.h;
    var offset := 2 * (j * cfg.h + i) + ch.modulo * j;
    var addr := (if cfg.desc then ch.ptr - offset else ch.ptr + offset) % 0x1_0000_0000;
    addr / 2 % size
  }

  /** The word a channel delivers as word k; a disabled one delivers its register. */
  function Delivered(cfg: Config, ch: Channel, mem: seq<Word>, reg: Word, k: nat): Word
    requires cfg.h > 0 && |mem| > 0
  {
    if ch.on then mem[Spot(cfg, ch, |mem|, k)] else reg
  }

  /** A bit of A, masked in the first and in the last word of a row. */
  predicate MaskedBit(cfg: Config, s: Latches, k: nat, b: nat)
    requires cfg.h > 0 && |s.mem| > 0
  {
    && WordBit(Delivered(cfg, cfg.a, s.mem, s.adat, k), b)
    && (k % cfg.h == 0 ==> WordBit(cfg.afwm, b))
    && (k % cfg.h == cfg.h - 1 ==> WordBit(cfg.alwm, b))
  }

  /** Bit b of A after the shift: it comes from so many places to the left, or to the right in a descending blit, if
      need be from the word before, also across rows.  Before the first word there are zeros. */
  predicate BitA(cfg: Config, s: Latches, k: nat, b: nat)
    requires cfg.h > 0 && |s.mem| > 0 && cfg.ashift < 16 && b < 16
  {
    if cfg.desc then
      (if b >= cfg.ashift then MaskedBit(cfg, s, k, b - cfg.ashift)
       else k > 0 && MaskedBit(cfg, s, k - 1, 16 - cfg.ashift + b))
    else if b + cfg.ashift < 16 then MaskedBit(cfg, s, k, b + cfg.ashift)
    else k > 0 && MaskedBit(cfg, s, k - 1, b + cfg.ashift - 16)
  }

  predicate SourceB(cfg: Config, s: Latches, k: nat, b: nat)
    requires cfg.h > 0 && |s.mem| > 0
  {
    WordBit(Delivered(cfg, cfg.b, s.mem, Word(0), k), b)
  }

  /** Bit b of B: shifted alike, but a disabled B holds what has been shifted before. */
  predicate BitB(cfg: Config, s: Latches, k: nat, b: nat)
    requires cfg.h > 0 && |s.mem| > 0 && cfg.bshift < 16 && b < 16
  {
    if !cfg.b.on then WordBit(s.bhold, b)
    else if cfg.desc then
      (if b >= cfg.bshift then SourceB(cfg, s, k, b - cfg.bshift)
       else k > 0 && SourceB(cfg, s, k - 1, 16 - cfg.bshift + b))
    else if b + cfg.bshift < 16 then SourceB(cfg, s, k, b + cfg.bshift)
    else k > 0 && SourceB(cfg, s, k - 1, b + cfg.bshift - 16)
  }

  predicate BitC(cfg: Config, s: Latches, k: nat, b: nat)
    requires cfg.h > 0 && |s.mem| > 0
  {
    WordBit(Delivered(cfg, cfg.c, s.mem, s.cdat, k), b)
  }

  /** The minterm of the three bits. */
  predicate CombinedBit(cfg: Config, s: Latches, k: nat, b: nat)
    requires cfg.Valid() && |s.mem| > 0 && b < 16
  {
    Has(cfg.mt, TermBit(BitA(cfg, s, k, b), BitB(cfg, s, k, b), BitC(cfg, s, k, b)))
  }

  /** The bits of the first n words of a row that starts at word k, in the order they are filled. */
  function RowOfBits(cfg: Config, s: Latches, k: nat, n: nat): (r: seq<bool>)
    requires cfg.Valid() && |s.mem| > 0
    ensures |r| == 16 * n
  {
    seq(16 * n, m requires 0 <= m < 16 * n => CombinedBit(cfg, s, k + m / 16, m % 16))
  }

  /** Bit b of word k as stored.  Filling takes the row bit by bit, from the preset carry. */
  predicate StoredBit(cfg: Config, s: Latches, k: nat, b: nat)
    requires cfg.Valid() && |s.mem| > 0 && b < 16
  {
    if cfg.fill then
      FillRow(RowOfBits(cfg, s, k - k % cfg.h, k % cfg.h + 1), cfg.ife, cfg.fci)[16 * (k % cfg.h) + b]
    else CombinedBit(cfg, s, k, b)
  }

  // ---------- the same on words ----------

  lemma SpotIs(cfg: Config, ch: Channel, size: nat, k: nat)
    requires cfg.h > 0 && size > 0
    ensures Cell(size, Addr(cfg, ch, k)) == Spot(cfg, ch, size, k)
  {
    Recompose(k, cfg.h);
  }

  function WordA(cfg: Config, s: Latches, k: nat): Word
    requires cfg.h > 0 && |s.mem| > 0
  {
    Delivered(cfg, cfg.a, s.mem, s.adat, k)
  }

  function WordB(cfg: Config, s: Latches, k: nat): Word
    requires cfg.h > 0 && |s.mem| > 0
  {
    Delivered(cfg, cfg.b, s.mem, Word(0), k)
  }

  function WordC(cfg: Config, s: Latches, k: nat): Word
    requires cfg.h > 0 && |s.mem| > 0
  {
    Delivered(cfg, cfg.c, s.mem, s.cdat, k)
  }

  /** What the shifters hold of the words before word k. */
  function BeforeA(cfg: Config, s: Latches, k: nat): Word
    requires cfg.h > 0 && |s.mem| > 0
  {
    if k == 0 then Word(0) else Mask(cfg, Col(k - 1, cfg.h), WordA(cfg, s, k - 1))
  }

  function BeforeB(cfg: Config, s: Latches, k: nat): Word
    requires cfg.h > 0 && |s.mem| > 0
  {
    if k == 0 then Word(0) else WordB(cfg, s, k - 1)
  }

  function HeldB(cfg: Config, s: Latches, k: nat): Word
    requires cfg.Valid() && |s.mem| > 0
  {
    if cfg.b.on then Low(Hold(cfg.desc, BeforeB(cfg, s, k), WordB(cfg, s, k), cfg.bshift)) else s.bhold
  }

  /** The latches with the sources of word k read. */
  function Loaded(cfg: Config, s: Latches, k: nat): Latches
    requires cfg.Valid() && |s.mem| > 0
  {
    s.(adat := WordA(cfg, s, k), preva := BeforeA(cfg, s, k), bhold := HeldB(cfg, s, k), cdat := WordC(cfg, s, k))
  }

  function CombinedWord(cfg: Config, s: Latches, k: nat): Word
    requires cfg.Valid() && |s.mem| > 0
  {
    Unfilled(cfg, Loaded(cfg, s, k), k)
  }

  /** The first n words of the row that starts at word k. */
  function RowOfWords(cfg: Config, s: Latches, k: nat, n: nat): (ws: seq<Word>)
    requires cfg.Valid() && |s.mem| > 0
    ensures |ws| == n
  {
    seq(n, i requires 0 <= i < n => CombinedWord(cfg, s, k + i))
  }

  function StoredWord(cfg: Config, s: Latches, k: nat): Word
    requires cfg.Valid() && |s.mem| > 0
  {
    if cfg.fill then FillWord(CombinedWord(cfg, s, k), cfg.ife, CarryInto(cfg, s, k)).word else CombinedWord(cfg, s, k)
  }

  /** The fill carry at word k. */
  function CarryInto(cfg: Config, s: Latches, k: nat): bool
    requires cfg.Valid() && |s.mem| > 0
  {
    CarryOut(RowOfWords(cfg, s, FirstOfRow(k, cfg.h), Col(k, cfg.h)), cfg.ife, cfg.fci)
  }

  // ---------- bits of the words ----------

  lemma NoBit(i: nat)
    ensures !WordBit(Word(0), i)
  {
    hide MaskAt;
    Nothing(MaskAt(i));
  }

  lemma Nothing(m: Long)
    ensures Both(Wide(Word(0)), m) == Long(0)
  {
  }

  lemma MaskBit(cfg: Config, s: Latches, k: nat, b: nat)
    requires cfg.h > 0 && |s.mem| > 0 && b < 16
    ensures WordBit(Mask(cfg, Col(k, cfg.h), WordA(cfg, s, k)), b) == MaskedBit(cfg, s, k, b)
  {
    hide WordBit, And, Delivered;
    var w := WordA(cfg, s, k);
    AndBit(w, cfg.afwm, b);
    AndBit(w, cfg.alwm, b);
    AndBit(And(w, cfg.afwm), cfg.alwm, b);
  }

  lemma HeldA(cfg: Config, s: Latches, k: nat, b: nat)
    requires cfg.Valid() && |s.mem| > 0 && b < 16
    ensures var w := Loaded(cfg, s, k);
      LongBit(Hold(cfg.desc, w.preva, Mask(cfg, Col(k, cfg.h), w.adat), cfg.ashift), b) == BitA(cfg, s, k, b)
  {
    hide WordBit, LongBit, Hold, Mask, MaskedBit, WordA, HeldB, Col;
    var cur := Mask(cfg, Col(k, cfg.h), WordA(cfg, s, k));
    HeldBit(cfg.desc, BeforeA(cfg, s, k), cur, cfg.ashift, b);
    forall i: nat | i < 16
      ensures WordBit(cur, i) == MaskedBit(cfg, s, k, i)
      ensures WordBit(BeforeA(cfg, s, k), i) == (k > 0 && MaskedBit(cfg, s, k - 1, i))
    {
      MaskBit(cfg, s, k, i);
      if k == 0 {
        NoBit(i);
      } else {
        MaskBit(cfg, s, k - 1, i);
      }
    }
  }

  lemma HeldBBit(cfg: Config, s: Latches, k: nat, b: nat)
    requires cfg.Valid() && |s.mem| > 0 && b < 16
    ensures WordBit(HeldB(cfg, s, k), b) == BitB(cfg, s, k, b)
  {
    hide WordBit, LongBit, Hold, Low, Delivered;
    if cfg.b.on {
      LowBit(Hold(cfg.desc, BeforeB(cfg, s, k), WordB(cfg, s, k), cfg.bshift), b);
      HeldBit(cfg.desc, BeforeB(cfg, s, k), WordB(cfg, s, k), cfg.bshift, b);
      forall i: nat | i < 16
        ensures k == 0 ==> !WordBit(BeforeB(cfg, s, k), i)
      {
        NoBit(i);
      }
    }
  }

  lemma CombinedWordBit(cfg: Config, s: Latches, k: nat, b: nat)
    requires cfg.Valid() && |s.mem| > 0 && b < 16
    ensures WordBit(CombinedWord(cfg, s, k), b) == CombinedBit(cfg, s, k, b)
  {
    hide LongBit, Hold, Low, Mask, BlitFunc, Wide, HeldB, BeforeA, Delivered, BitA, BitB, Has, TermBit, Col;
    var w := Loaded(cfg, s, k);
    var a := Hold(cfg.desc, w.preva, Mask(cfg, Col(k, cfg.h), w.adat), cfg.ashift);
    LowBit(BlitFunc(a, Wide(w.bhold), Wide(w.cdat), cfg.mt), b);
    MintermBit(a, Wide(w.bhold), Wide(w.cdat), cfg.mt, b);
    HeldA(cfg, s, k, b);
    HeldBBit(cfg, s, k, b);
  }

  // ---------- bits of a filled row ----------

  lemma ByteBit(w: Word, k: nat)
    requires k < 8
    ensures Bit(LowByte(w), k) == WordBit(w, k) && Bit(HighByte(w), k) == WordBit(w, 8 + k)
  {
    LowMasks();
    HighMasks();
    LowBits(w);
    HighBits(w);
    hide MaskAt, Bit, LowByte, HighByte, Both, Wide;
    if k < 4 {
      if k == 0 {} else if k == 1 {} else if k == 2 {} else {}
    } else {
      if k == 4 {} else if k == 5 {} else if k == 6 {} else {}
    }
  }

  lemma LowMasks()
    ensures MaskAt(0) == Long(0x1) && MaskAt(1) == Long(0x2) && MaskAt(2) == Long(0x4) && MaskAt(3) == Long(0x8)
    ensures MaskAt(4) == Long(0x10) && MaskAt(5) == Long(0x20) && MaskAt(6) == Long(0x40) && MaskAt(7) == Long(0x80)
  {
    assert MaskAt(4) == Long(0x10);
  }

  lemma HighMasks()
    ensures MaskAt(8) == Long(0x100) && MaskAt(9) == Long(0x200)
    ensures MaskAt(10) == Long(0x400) && MaskAt(11) == Long(0x800)
    ensures MaskAt(12) == Long(0x1000) && MaskAt(13) == Long(0x2000) && MaskAt(14) == Long(0x4000)
    ensures MaskAt(15) == Long(0x8000)
  {
    LowMasks();
    assert MaskAt(12) == Long(0x1000);
  }

  lemma LowBits(w: Word)
    ensures Bit(LowByte(w), 0) == (Both(Wide(w), Long(0x1)) != Long(0))
    ensures Bit(LowByte(w), 1) == (Both(Wide(w), Long(0x2)) != Long(0))
    ensures Bit(LowByte(w), 2) == (Both(Wide(w), Long(0x4)) != Long(0))
    ensures Bit(LowByte(w), 3) == (Both(Wide(w), Long(0x8)) != Long(0))
    ensures Bit(LowByte(w), 4) == (Both(Wide(w), Long(0x10)) != Long(0))
    ensures Bit(LowByte(w), 5) == (Both(Wide(w), Long(0x20)) != Long(0))
    ensures Bit(LowByte(w), 6) == (Both(Wide(w), Long(0x40)) != Long(0))
    ensures Bit(LowByte(w), 7) == (Both(Wide(w), Long(0x80)) != Long(0))
  {
  }

  lemma HighBits(w: Word)
    ensures Bit(HighByte(w), 0) == (Both(Wide(w), Long(0x100)) != Long(0))
    ensures Bit(HighByte(w), 1) == (Both(Wide(w), Long(0x200)) != Long(0))
    ensures Bit(HighByte(w), 2) == (Both(Wide(w), Long(0x400)) != Long(0))
    ensures Bit(HighByte(w), 3) == (Both(Wide(w), Long(0x800)) != Long(0))
    ensures Bit(HighByte(w), 4) == (Both(Wide(w), Long(0x1000)) != Long(0))
    ensures Bit(HighByte(w), 5) == (Both(Wide(w), Long(0x2000)) != Long(0))
    ensures Bit(HighByte(w), 6) == (Both(Wide(w), Long(0x4000)) != Long(0))
    ensures Bit(HighByte(w), 7) == (Both(Wide(w), Long(0x8000)) != Long(0))
  {
  }

  lemma SameBits(w: Word, b: nat)
    requires b < 16
    ensures WordBits(w)[b] == WordBit(w, b)
  {
    hide Bit, WordBit, LowByte, HighByte;
    ByteBit(w, if b < 8 then b else b - 8);
  }

  lemma {:induction false} RowBitsAt(ws: seq<Word>, i: nat, b: nat)
    requires i < |ws| && b < 16
    ensures |RowBits(ws)| == 16 * |ws| && RowBits(ws)[16 * i + b] == WordBits(ws[i])[b]
    decreases |ws|
  {
    hide WordBits;
    var n := |ws| - 1;
    if i < n {
      RowBitsAt(ws[..n], i, b);
    } else if n > 0 {
      RowBitsAt(ws[..n], 0, 0);
    } else {
      assert ws[..0] == [];
    }
  }

  lemma {:induction false} FilledLast(ws: seq<Word>, inclusive: bool, carry: bool)
    ensures |FillWords(ws, inclusive, carry)| == |ws|
  {
    hide FillWord;
    if |ws| > 0 {
      FilledLast(ws[..|ws| - 1], inclusive, carry);
    }
  }

  /** The row up to and including word k. */
  lemma RowWithWord(cfg: Config, s: Latches, k: nat)
    requires cfg.Valid() && |s.mem| > 0
    ensures var from, n := FirstOfRow(k, cfg.h), Col(k, cfg.h);
      RowOfWords(cfg, s, from, n + 1) == RowOfWords(cfg, s, from, n) + [CombinedWord(cfg, s, k)]
  {
    hide CombinedWord, Col;
  }

  lemma RowBitsOf(cfg: Config, s: Latches, k: nat, n: nat)
    requires cfg.Valid() && |s.mem| > 0 && n > 0
    ensures RowBits(RowOfWords(cfg, s, k, n)) == RowOfBits(cfg, s, k, n)
  {
    hide CombinedWord, CombinedBit, WordBits, RowBits;
    var ws := RowOfWords(cfg, s, k, n);
    RowBitsAt(ws, 0, 0);
    forall m | 0 <= m < 16 * n
      ensures RowBits(ws)[m] == RowOfBits(cfg, s, k, n)[m]
    {
      RowBitsAt(ws, m / 16, m % 16);
      SameBits(ws[m / 16], m % 16);
      CombinedWordBit(cfg, s, k + m / 16, m % 16);
    }
  }

  lemma StoredWordBit(cfg: Config, s: Latches, k: nat, b: nat)
    requires cfg.Valid() && |s.mem| > 0 && b < 16
    ensures WordBit(StoredWord(cfg, s, k), b) == StoredBit(cfg, s, k, b)
  {
    hide CombinedWord, CombinedBit, WordBits, WordBit, RowBits, FillWord, RowOfBits, RowOfWords, FillRow;
    CombinedWordBit(cfg, s, k, b);
    if cfg.fill {
      var from, n := FirstOfRow(k, cfg.h), Col(k, cfg.h);
      var ws := RowOfWords(cfg, s, from, n + 1);
      RowWithWord(cfg, s, k);
      assert ws[..n] == RowOfWords(cfg, s, from, n) && ws[n] == CombinedWord(cfg, s, k);
      var filled := FillWords(ws, cfg.ife, cfg.fci);
      FilledLast(ws, cfg.ife, cfg.fci);
      FilledLast(ws[..n], cfg.ife, cfg.fci);
      assert filled[n] == StoredWord(cfg, s, k);
      RowBitsAt(filled, n, b);
      SameBits(filled[n], b);
      TableFillIsSerial(ws, cfg.ife, cfg.fci);
      RowBitsOf(cfg, s, from, n + 1);
    }
  }

  // ---------- the whole blit ----------

  /** What an enabled channel reads has not been stored by the same blit: the result of a word is stored after the
      sources of the next one have been read, so only the words before that matter.  Reading a word and storing it in
      the same place is fine, as is every copy that runs away from its source. */
  ghost predicate ReadsOriginal(cfg: Config, ch: Channel, size: nat)
    requires cfg.h > 0 && size > 0
  {
    ch.on && cfg.d.on ==>
      forall j: nat, k: nat :: j < cfg.Words() && k + 1 < j ==>
        Spot(cfg, ch, size, j) != Spot(cfg, cfg.d, size, k)
  }

  ghost predicate AllOriginal(cfg: Config, size: nat)
    requires cfg.h > 0 && size > 0
  {
    ReadsOriginal(cfg, cfg.a, size) && ReadsOriginal(cfg, cfg.b, size) && ReadsOriginal(cfg, cfg.c, size)
  }

  function StoredWords(cfg: Config, s: Latches, n: nat): (ws: seq<Word>)
    requires cfg.Valid() && |s.mem| > 0
    ensures |ws| == n
  {
    seq(n, k requires 0 <= k < n => StoredWord(cfg, s, k))
  }

  /** The registers before word k. */
  ghost predicate Registers(cfg: Config, s: Latches, w: Latches, k: nat)
    requires cfg.Valid() && |s.mem| > 0
  {
    && w.adat == (if k == 0 then s.adat else WordA(cfg, s, k - 1))
    && w.bhold == (if k == 0 then s.bhold else HeldB(cfg, s, k - 1))
    && w.cdat == (if k == 0 then s.cdat else WordC(cfg, s, k - 1))
    && w.preva == BeforeA(cfg, s, k) && (cfg.b.on ==> w.prevb == BeforeB(cfg, s, k))
    && (cfg.fill ==> w.fc == CarryInto(cfg, s, k))
  }

  /** Memory and the waiting result before the next word. */
  ghost predicate Memory(cfg: Config, s: Latches, w: Latches, ws: seq<Word>)
    requires cfg.Valid() && |s.mem| > 0
  {
    if cfg.d.on then Copied(cfg, s.mem, w, ws) else w.mem == s.mem
  }

  lemma StillRead(cfg: Config, s: Latches, w: Latches, ws: seq<Word>, ch: Channel, reg: Word, k: nat)
    requires cfg.Valid() && |s.mem| > 0 && ReadsOriginal(cfg, ch, |s.mem|) && ch.on
    requires Memory(cfg, s, w, ws) && |ws| <= k < cfg.Words()
    ensures |w.mem| == |s.mem| && Read(w.mem, Addr(cfg, ch, k)) == Delivered(cfg, ch, s.mem, reg, k)
  {
    hide Spot, Addr, Cell, Config.Words;
    SpotIs(cfg, ch, |s.mem|, k);
    if cfg.d.on && |ws| > 0 {
      forall j: nat | j < |ws| - 1
        ensures Place(cfg, |s.mem|, j) != Spot(cfg, ch, |s.mem|, k)
      {
        SpotIs(cfg, cfg.d, |s.mem|, j);
      }
      ElsewhereKept(cfg, s.mem, ws[..|ws| - 1], Spot(cfg, ch, |s.mem|, k));
    }
  }

  /** Reading the sources of word k loads the registers with what the channels deliver. */
  lemma LoadedBy(cfg: Config, s: Latches, w: Latches, ws: seq<Word>, k: nat)
    requires cfg.Valid() && |s.mem| > 0 && AllOriginal(cfg, |s.mem|) && k < cfg.Words() && |ws| == k
    requires Registers(cfg, s, w, k) && Memory(cfg, s, w, ws)
    ensures |w.mem| == |s.mem|
    ensures var f := Fetch(cfg, w, k);
      && f.adat == WordA(cfg, s, k) && f.bhold == HeldB(cfg, s, k) && f.cdat == WordC(cfg, s, k)
      && f.preva == BeforeA(cfg, s, k) && f.fc == w.fc && (cfg.b.on ==> f.prevb == WordB(cfg, s, k))
  {
    hide Fetch, Read, Addr, Low, Hold, ReadsOriginal, Spot, Mask, CarryInto, Memory, Config.Words;
    assert |w.mem| == |s.mem| by { MemorySize(cfg, s, w, ws); }
    Fetched(cfg, w, k);
    Kept(cfg, w, k);
    if cfg.a.on {
      StillRead(cfg, s, w, ws, cfg.a, s.adat, k);
    }
    if cfg.b.on {
      StillRead(cfg, s, w, ws, cfg.b, Word(0), k);
    }
    if cfg.c.on {
      StillRead(cfg, s, w, ws, cfg.c, s.cdat, k);
    }
  }

  lemma MemorySize(cfg: Config, s: Latches, w: Latches, ws: seq<Word>)
    requires cfg.Valid() && |s.mem| > 0 && Memory(cfg, s, w, ws)
    ensures |w.mem| == |s.mem|
  {
  }

  lemma SameUnfilled(cfg: Config, x: Latches, y: Latches, k: nat)
    requires cfg.Valid() && x.adat == y.adat && x.bhold == y.bhold && x.cdat == y.cdat && x.preva == y.preva
    ensures Unfilled(cfg, x, k) == Unfilled(cfg, y, k)
  {
    hide Mask, Hold, Low, BlitFunc, Wide, Col;
  }

  /** The fill carry goes on inside a row and is preset for the next. */
  lemma CarrySteps(cfg: Config, s: Latches, k: nat)
    requires cfg.Valid() && |s.mem| > 0
    ensures CarryInto(cfg, s, 0) == cfg.fci
    ensures CarryInto(cfg, s, k + 1) ==
      if Col(k, cfg.h) + 1 == cfg.h then cfg.fci
      else FillWord(CombinedWord(cfg, s, k), cfg.ife, CarryInto(cfg, s, k)).carry
  {
    hide CombinedWord, FillWord, Col, RowOfWords;
    NextWord(k, cfg.h);
    FirstWord(cfg.h);
    FirstOfRowSteps(k, cfg.h);
    RowWithWord(cfg, s, k);
    var from, n := FirstOfRow(k, cfg.h), Col(k, cfg.h);
    var ws := RowOfWords(cfg, s, from, n);
    assert (ws + [CombinedWord(cfg, s, k)])[..n] == ws;
  }

  lemma {:induction false} RunMeans(cfg: Config, s: Latches, k: nat)
    requires cfg.Valid() && Fresh(cfg, s) && AllOriginal(cfg, |s.mem|) && k <= cfg.Words()
    ensures var w, ws := Run(cfg, s, k), StoredWords(cfg, s, k);
      Registers(cfg, s, w, k) && Memory(cfg, s, w, ws) && (w.zero <==> AllZero(ws))
  {
    hide OneWord, StoredWords, Registers, Memory, AllOriginal, AllZero, Config.Words;
    if k == 0 {
      Begins(cfg, s);
    } else {
      RunMeans(cfg, s, k - 1);
      WordMeans(cfg, s, Run(cfg, s, k - 1), k - 1);
    }
  }

  lemma Begins(cfg: Config, s: Latches)
    requires cfg.Valid() && Fresh(cfg, s)
    ensures Registers(cfg, s, s, 0) && Memory(cfg, s, s, StoredWords(cfg, s, 0)) && AllZero(StoredWords(cfg, s, 0))
  {
    hide CarryInto;
    CarrySteps(cfg, s, 0);
  }

  lemma WordMeans(cfg: Config, s: Latches, w: Latches, k: nat)
    requires cfg.Valid() && |s.mem| > 0 && AllOriginal(cfg, |s.mem|) && k < cfg.Words()
    requires Registers(cfg, s, w, k) && Memory(cfg, s, w, StoredWords(cfg, s, k))
    requires w.zero <==> AllZero(StoredWords(cfg, s, k))
    ensures |w.mem| == |s.mem|
    ensures var n, ws := OneWord(cfg, w, k), StoredWords(cfg, s, k + 1);
      Registers(cfg, s, n, k + 1) && Memory(cfg, s, n, ws) && (n.zero <==> AllZero(ws))
  {
    hide Fetch, Unfilled, Mask, HeldB, Delivered, CarryInto, FillWord, Write, Addr, AllOriginal, AllZero, OneWord,
         Copied, Col, Config.Words, Loaded, StoredWords;
    var ws := StoredWords(cfg, s, k);
    LoadedBy(cfg, s, w, ws, k);
    Combined(cfg, w, k);
    SameUnfilled(cfg, Fetch(cfg, w, k), Loaded(cfg, s, k), k) by { LoadedFields(cfg, s, k); }
    CarrySteps(cfg, s, k);
    assert StoredWords(cfg, s, k + 1) == ws + [StoredWord(cfg, s, k)] by { OneMoreStored(cfg, s, k); }
    OneMoreZero(ws, StoredWord(cfg, s, k));
    if cfg.d.on {
      CopiedOn(cfg, s.mem, w, OneWord(cfg, w, k), ws, StoredWord(cfg, s, k));
    }
  }

  lemma LoadedFields(cfg: Config, s: Latches, k: nat)
    requires cfg.Valid() && |s.mem| > 0
    ensures var l := Loaded(cfg, s, k);
      && l.adat == WordA(cfg, s, k) && l.bhold == HeldB(cfg, s, k) && l.cdat == WordC(cfg, s, k)
      && l.preva == BeforeA(cfg, s, k)
  {
    hide HeldB, Delivered, Mask;
  }

  lemma OneMoreStored(cfg: Config, s: Latches, k: nat)
    requires cfg.Valid() && |s.mem| > 0
    ensures StoredWords(cfg, s, k + 1) == StoredWords(cfg, s, k) + [StoredWord(cfg, s, k)]
  {
    hide StoredWord;
  }

  lemma WholeMeans(cfg: Config, s: Latches)
    requires cfg.Valid() && Fresh(cfg, s) && AllOriginal(cfg, |s.mem|)
    ensures var w, ws := Whole(cfg, s), StoredWords(cfg, s, cfg.Words());
      w.mem == (if cfg.d.on then Written(cfg, s.mem, ws) else s.mem) && (w.zero <==> AllZero(ws))
  {
    hide Run, StoredWords, Registers, Copied, AllOriginal, AllZero, Config.Words, Write, Addr, Written;
    RunMeans(cfg, s, cfg.Words());
    WordCount(cfg);
    if cfg.d.on {
      AllCopied(cfg, s.mem, Run(cfg, s, cfg.Words()), StoredWords(cfg, s, cfg.Words()));
    }
  }

  /** No later word goes to the place of word k. */
  ghost predicate Lasts(cfg: Config, size: nat, k: nat)
    requires cfg.h > 0 && size > 0
  {
    forall j: nat :: k < j < cfg.Words() ==> Spot(cfg, cfg.d, size, j) != Spot(cfg, cfg.d, size, k)
  }

  /** For every blit that reads nothing it has stored before: each bit of each word that is not overwritten later is as
      the reference says, whatever the channels, shifts, masks, minterm, direction and fill mode. */
  lemma BlitMeans(cfg: Config, s: Latches, k: nat, b: nat)
    requires cfg.Valid() && Fresh(cfg, s) && AllOriginal(cfg, |s.mem|)
    requires cfg.d.on && k < cfg.Words() && Lasts(cfg, |s.mem|, k) && b < 16
    ensures |Whole(cfg, s).mem| == |s.mem|
    ensures WordBit(Whole(cfg, s).mem[Spot(cfg, cfg.d, |s.mem|, k)], b) == StoredBit(cfg, s, k, b)
  {
    hide Whole, AllOriginal, AllZero, Config.Words, Written, StoredBit, StoredWord, WordBit, Spot, Addr, Cell;
    var size := |s.mem|;
    WholeMeans(cfg, s);
    forall j: nat | j < cfg.Words()
      ensures Place(cfg, size, j) == Spot(cfg, cfg.d, size, j)
    {
      SpotIs(cfg, cfg.d, size, j);
    }
    RemainingWord(cfg, s.mem, StoredWords(cfg, s, cfg.Words()), k);
    StoredWordBit(cfg, s, k, b);
  }

  /** Nothing else changes. */
  lemma BlitKeeps(cfg: Config, s: Latches, c: nat)
    requires cfg.Valid() && Fresh(cfg, s) && AllOriginal(cfg, |s.mem|) && c < |s.mem|
    requires cfg.d.on ==> forall k: nat :: k < cfg.Words() ==> Spot(cfg, cfg.d, |s.mem|, k) != c
    ensures |Whole(cfg, s).mem| == |s.mem| && Whole(cfg, s).mem[c] == s.mem[c]
  {
    hide Whole, AllOriginal, AllZero, Config.Words, Written, StoredWord, Spot, Addr, Cell;
    WholeMeans(cfg, s);
    if cfg.d.on {
      forall j: nat | j < cfg.Words()
        ensures Place(cfg, |s.mem|, j) != c
      {
        SpotIs(cfg, cfg.d, |s.mem|, j);
      }
      ElsewhereKept(cfg, s.mem, StoredWords(cfg, s, cfg.Words()), c);
    }
  }

  /** No bit of the word is set. */
  ghost predicate NoBitStored(cfg: Config, s: Latches, k: nat)
    requires cfg.Valid() && |s.mem| > 0
  {
    forall b: nat :: b < 16 ==> !StoredBit(cfg, s, k, b)
  }

  lemma ZeroWord(cfg: Config, s: Latches, k: nat)
    requires cfg.Valid() && |s.mem| > 0
    ensures StoredWord(cfg, s, k) == Word(0) <==> NoBitStored(cfg, s, k)
  {
    hide StoredWord, StoredBit, WordBit, WordBits;
    var w := StoredWord(cfg, s, k);
    forall b: nat | b < 16
      ensures WordBits(w)[b] == StoredBit(cfg, s, k, b) && !WordBits(Word(0))[b]
    {
      StoredWordBit(cfg, s, k, b);
      SameBits(w, b);
      SpecialBits(b);
    }
    if NoBitStored(cfg, s, k) {
      assert WordBits(w) == WordBits(Word(0));
      WordFromBits(w, Word(0));
    }
  }

  /** The zero flag tells whether any bit was set in any result. */
  lemma ZeroMeans(cfg: Config, s: Latches)
    requires cfg.Valid() && Fresh(cfg, s) && AllOriginal(cfg, |s.mem|)
    ensures Whole(cfg, s).zero <==> forall k: nat :: k < cfg.Words() ==> NoBitStored(cfg, s, k)
  {
    hide Whole, AllOriginal, Config.Words, Written, StoredWord, NoBitStored;
    WholeMeans(cfg, s);
    forall k: nat | k < cfg.Words()
      ensures StoredWords(cfg, s, cfg.Words())[k] == Word(0) <==> NoBitStored(cfg, s, k)
    {
      ZeroWord(cfg, s, k);
    }
  }

  /** A plain copy from A to D moves the masked bits of the source by the shift, across word and row boundaries. */
  lemma ShiftedCopy(cfg: Config, s: Latches, k: nat, b: nat)
    requires cfg.Valid() && Fresh(cfg, s) && AllOriginal(cfg, |s.mem|)
    requires cfg.a.on && cfg.d.on && cfg.mt == 0xF0 && !cfg.fill
    requires k < cfg.Words() && Lasts(cfg, |s.mem|, k) && b < 16
    ensures |Whole(cfg, s).mem| == |s.mem|
    ensures WordBit(Whole(cfg, s).mem[Spot(cfg, cfg.d, |s.mem|, k)], b) ==
      if cfg.desc then
        (if b >= cfg.ashift then MaskedBit(cfg, s, k, b - cfg.ashift)
         else k > 0 && MaskedBit(cfg, s, k - 1, 16 - cfg.ashift + b))
      else if b + cfg.ashift < 16 then MaskedBit(cfg, s, k, b + cfg.ashift)
      else k > 0 && MaskedBit(cfg, s, k - 1, b + cfg.ashift - 16)
  {
    hide Whole, AllOriginal, MaskedBit, BitB, BitC, WordBit, Spot, Lasts;
    BlitMeans(cfg, s, k, b);
    TakesBitA(BitA(cfg, s, k, b), BitB(cfg, s, k, b), BitC(cfg, s, k, b));
  }

  lemma TakesBitA(a: bool, b: bool, c: bool)
    ensures Has(0xF0, TermBit(a, b, c)) == a
  {
  }
}
