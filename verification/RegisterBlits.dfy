/** Blits without a source channel: every word comes from the registers alone, so what either engine stores can be said
    before the blit starts. */
module RegisterBlits {
  import opened BlitterWords
  import opened BlitterFill
  import opened Blit

  // ---------- the bits of a word ----------

  function CountSet(bits: seq<bool>): nat {
    if |bits| == 0 then 0 else CountSet(bits[..|bits| - 1]) + if bits[|bits| - 1] then 1 else 0
  }

  function Ones(w: Word): nat {
    CountSet(WordBits(w))
  }

  predicate Odd(n: nat) {
    n % 2 == 1
  }

  /** The carry leaves a row of bits flipped if and only if an odd number of them is set. */
  lemma {:induction false} CarryIsParity(bits: seq<bool>, carry: bool)
    ensures CarryAfter(bits, carry) == (carry != Odd(CountSet(bits)))
  {
    if |bits| > 0 {
      CarryIsParity(bits[..|bits| - 1], carry);
    }
  }

  lemma BitsDetermine(x: bv8, y: bv8)
    requires (x & 0x01 != 0) == (y & 0x01 != 0) && (x & 0x02 != 0) == (y & 0x02 != 0)
    requires (x & 0x04 != 0) == (y & 0x04 != 0) && (x & 0x08 != 0) == (y & 0x08 != 0)
    requires (x & 0x10 != 0) == (y & 0x10 != 0) && (x & 0x20 != 0) == (y & 0x20 != 0)
    requires (x & 0x40 != 0) == (y & 0x40 != 0) && (x & 0x80 != 0) == (y & 0x80 != 0)
    ensures x == y
  {
  }

  lemma BitIs(d: Octet)
    ensures Bit(d, 0) == (d.v & 0x01 != 0) && Bit(d, 1) == (d.v & 0x02 != 0)
    ensures Bit(d, 2) == (d.v & 0x04 != 0) && Bit(d, 3) == (d.v & 0x08 != 0)
    ensures Bit(d, 4) == (d.v & 0x10 != 0) && Bit(d, 5) == (d.v & 0x20 != 0)
    ensures Bit(d, 6) == (d.v & 0x40 != 0) && Bit(d, 7) == (d.v & 0x80 != 0)
  {
  }

  lemma OctetFromBits(d: Octet, e: Octet)
    requires forall i: nat :: i < 8 ==> Bit(d, i) == Bit(e, i)
    ensures d == e
  {
    hide Bit;
    BitIs(d);
    BitIs(e);
    BitsDetermine(d.v, e.v);
  }

  lemma JoinedHalves(w: Word)
    ensures Join(HighByte(w), LowByte(w)) == w
  {
  }

  /** A word is its sixteen bits. */
  lemma WordFromBits(v: Word, w: Word)
    requires WordBits(v) == WordBits(w)
    ensures v == w
  {
    hide Bit, LowByte, HighByte, Join;
    forall i: nat | i < 8
      ensures Bit(LowByte(v), i) == Bit(LowByte(w), i) && Bit(HighByte(v), i) == Bit(HighByte(w), i)
    {
      assert WordBits(v)[i] == Bit(LowByte(v), i) && WordBits(w)[i] == Bit(LowByte(w), i);
      assert WordBits(v)[8 + i] == Bit(HighByte(v), i) && WordBits(w)[8 + i] == Bit(HighByte(w), i);
    }
    OctetFromBits(LowByte(v), LowByte(w));
    OctetFromBits(HighByte(v), HighByte(w));
    JoinedHalves(v);
    JoinedHalves(w);
  }

  lemma OctetBits(d: Octet, i: nat)
    requires i < 8
    ensures d.v == 0xFF ==> Bit(d, i)
    ensures d.v == 0 ==> !Bit(d, i)
    ensures d.v == 1 ==> (Bit(d, i) <==> i == 0)
  {
  }

  lemma SpecialHalves()
    ensures LowByte(Word(0xFFFF)).v == 0xFF && HighByte(Word(0xFFFF)).v == 0xFF
    ensures LowByte(Word(0)).v == 0 && HighByte(Word(0)).v == 0
    ensures LowByte(Word(1)).v == 1 && HighByte(Word(1)).v == 0
  {
  }

  lemma SpecialBits(i: nat)
    requires i < 16
    ensures WordBits(Word(0xFFFF))[i] && !WordBits(Word(0))[i]
    ensures WordBits(Word(1))[i] <==> i == 0
  {
    hide Bit, LowByte, HighByte;
    SpecialHalves();
    var k := if i < 8 then i else i - 8;
    OctetBits(LowByte(Word(0xFFFF)), k);
    OctetBits(HighByte(Word(0xFFFF)), k);
    OctetBits(LowByte(Word(0)), k);
    OctetBits(HighByte(Word(0)), k);
    OctetBits(LowByte(Word(1)), k);
  }

  // ---------- filling one row of bits ----------

  lemma FillRowAt(bits: seq<bool>, inclusive: bool, carry: bool, k: nat)
    requires k < |bits|
    ensures FillRow(bits, inclusive, carry)[k] == FillBit(bits[k], inclusive, CarryAfter(bits[..k], carry))
  {
    var n := |bits| - 1;
    if k < n {
      FillRowAt(bits[..n], inclusive, carry, k);
      assert bits[..n][..k] == bits[..k];
    }
  }

  /** A row is filled alike with both carries if and only if inclusive filling finds all its bits set. */
  lemma FillRowSame(bits: seq<bool>, inclusive: bool)
    requires |bits| > 0
    ensures FillRow(bits, inclusive, true) == FillRow(bits, inclusive, false) <==>
      inclusive && forall i :: 0 <= i < |bits| ==> bits[i]
  {
    forall i | 0 <= i < |bits|
      ensures FillRow(bits, inclusive, true)[i] == FillRow(bits, inclusive, false)[i] <==> inclusive && bits[i]
    {
      FillRowAt(bits, inclusive, true, i);
      FillRowAt(bits, inclusive, false, i);
      CarryIsParity(bits[..i], true);
      CarryIsParity(bits[..i], false);
    }
    assert FillRow(bits, inclusive, true)[0] == FillRow(bits, inclusive, false)[0] <==> inclusive && bits[0];
  }

  lemma {:induction false} NoBitsSet(bits: seq<bool>)
    requires forall i :: 0 <= i < |bits| ==> !bits[i]
    ensures CountSet(bits) == 0
  {
    if |bits| > 0 {
      NoBitsSet(bits[..|bits| - 1]);
    }
  }

  lemma {:induction false} FirstBitSet(bits: seq<bool>)
    requires |bits| > 0 && forall i :: 0 <= i < |bits| ==> (bits[i] <==> i == 0)
    ensures CountSet(bits) == 1
  {
    if |bits| > 1 {
      FirstBitSet(bits[..|bits| - 1]);
    }
  }

  /** The row whose filling leaves nothing: without a carry no bit is set; with one the first bit alone, which exclusive
      filling clears again. */
  predicate Vanishes(bits: seq<bool>, inclusive: bool, carry: bool) {
    !(carry && inclusive) && forall i :: 0 <= i < |bits| ==> (bits[i] <==> carry && i == 0)
  }

  /** The carry just before bit i of a row of which nothing is left. */
  lemma {:induction false} VanishingCarry(bits: seq<bool>, carry: bool, i: nat)
    requires i <= |bits| && forall j :: 0 <= j < i ==> (bits[j] <==> carry && j == 0)
    ensures CarryAfter(bits[..i], carry) == (carry && i == 0)
  {
    CarryIsParity(bits[..i], carry);
    if i > 0 && carry {
      FirstBitSet(bits[..i]);
    } else {
      NoBitsSet(bits[..i]);
    }
  }

  lemma {:induction false} FillRowVanishes(bits: seq<bool>, inclusive: bool, carry: bool, n: nat)
    requires 0 < n <= |bits|
    ensures (forall i :: 0 <= i < n ==> !FillRow(bits, inclusive, carry)[i]) <==> Vanishes(bits[..n], inclusive, carry)
  {
    FillRowAt(bits, inclusive, carry, n - 1);
    if n > 1 {
      FillRowVanishes(bits, inclusive, carry, n - 1);
      assert bits[..n][..n - 1] == bits[..n - 1];
      if Vanishes(bits[..n - 1], inclusive, carry) {
        assert bits[..n - 1][0] == bits[0];
        VanishingCarry(bits[..n - 1], carry, n - 1);
        assert bits[..n - 1][..n - 1] == bits[..n - 1];
      }
    } else {
      assert bits[..0] == [];
    }
  }

  // ---------- filling one word ----------

  /** A word is filled alike with two carries if and only if they are equal, or inclusive filling finds all bits set. */
  lemma FillSameIff(raw: Word, inclusive: bool, c: bool, d: bool)
    ensures FillWord(raw, inclusive, c).word == FillWord(raw, inclusive, d).word <==>
      c == d || (inclusive && raw == Word(0xFFFF))
  {
    hide FillWord, WordBits, FillRow;
    var x, y := FillWord(raw, inclusive, true).word, FillWord(raw, inclusive, false).word;
    FillWordBits(raw, inclusive, true);
    FillWordBits(raw, inclusive, false);
    FillRowSame(WordBits(raw), inclusive);
    if WordBits(x) == WordBits(y) {
      WordFromBits(x, y);
    }
    forall i: nat | i < 16
      ensures WordBits(Word(0xFFFF))[i]
    {
      SpecialBits(i);
    }
    if forall i :: 0 <= i < 16 ==> WordBits(raw)[i] {
      assert WordBits(raw) == WordBits(Word(0xFFFF));
      WordFromBits(raw, Word(0xFFFF));
    }
  }

  /** A word is filled to 0 if and only if no bit is set and no carry comes in, or only the bit that stops it. */
  lemma FillZeroIff(raw: Word, inclusive: bool, carry: bool)
    ensures FillWord(raw, inclusive, carry).word == Word(0) <==>
      raw == (if carry then Word(1) else Word(0)) && !(carry && inclusive)
  {
    hide FillWord, WordBits, FillRow;
    var x := FillWord(raw, inclusive, carry).word;
    FillWordBits(raw, inclusive, carry);
    FillRowVanishes(WordBits(raw), inclusive, carry, 16);
    assert WordBits(raw)[..16] == WordBits(raw);
    forall i: nat | i < 16
      ensures !WordBits(Word(0))[i] && (WordBits(Word(1))[i] <==> i == 0)
    {
      SpecialBits(i);
    }
    if forall i :: 0 <= i < 16 ==> !WordBits(x)[i] {
      assert WordBits(x) == WordBits(Word(0));
      WordFromBits(x, Word(0));
    }
    var lone := if carry then Word(1) else Word(0);
    if forall i :: 0 <= i < 16 ==> (WordBits(raw)[i] <==> carry && i == 0) {
      assert WordBits(raw) == WordBits(lone);
      WordFromBits(raw, lone);
    }
  }

  lemma FillCarry(raw: Word, inclusive: bool, carry: bool)
    ensures FillWord(raw, inclusive, carry).carry == (carry != Odd(Ones(raw)))
  {
    hide FillWord, WordBits;
    FillWordBits(raw, inclusive, carry);
    CarryIsParity(WordBits(raw), carry);
  }

  // ---------- the words of a blit ----------

  /** The word of A that the shifter holds before word k. */
  function PreviousA(cfg: Config, s: Latches, k: nat): Word
    requires cfg.h > 0
  {
    if k == 0 then Word(0) else Mask(cfg, Col(k - 1, cfg.h), s.adat)
  }

  /** What the registers combine to in word k, before filling. */
  function Raw(cfg: Config, s: Latches, k: nat): Word
    requires cfg.Valid()
  {
    Unfilled(cfg, s.(preva := PreviousA(cfg, s, k)), k)
  }

  /** The number of bits set in the words before word k. */
  function OnesBefore(cfg: Config, s: Latches, k: nat): nat
    requires cfg.Valid()
  {
    if k == 0 then 0 else OnesBefore(cfg, s, k - 1) + Ones(Raw(cfg, s, k - 1))
  }

  /** The first word of the row of word k. */
  function FirstOfRow(k: nat, h: nat): (r: nat)
    requires h > 0
    ensures r <= k
  {
    k - Col(k, h)
  }

  /** The fill carry at word k, preset at an earlier word. */
  function Carry(cfg: Config, s: Latches, from: nat, k: nat): bool
    requires cfg.Valid()
  {
    cfg.fci != (Odd(OnesBefore(cfg, s, from)) != Odd(OnesBefore(cfg, s, k)))
  }

  /** Word k as stored, if the carry was last preset at an earlier word. */
  function Stored(cfg: Config, s: Latches, from: nat, k: nat): Word
    requires cfg.Valid()
  {
    if cfg.fill then FillWord(Raw(cfg, s, k), cfg.ife, Carry(cfg, s, from, k)).word else Raw(cfg, s, k)
  }

  /** The fast engine presets the carry at the start of every row, the cycle exact one at the start of the blit. */
  function FastWord(cfg: Config, s: Latches, k: nat): Word
    requires cfg.Valid()
  {
    Stored(cfg, s, FirstOfRow(k, cfg.h), k)
  }

  function ExactWord(cfg: Config, s: Latches, k: nat): Word
    requires cfg.Valid()
  {
    Stored(cfg, s, 0, k)
  }

  /** Word k is the same in both engines if and only if the rows before its own have an even number of bits set, or
      inclusive filling finds all its bits set. */
  ghost predicate SameAt(cfg: Config, s: Latches, k: nat)
    requires cfg.Valid()
  {
    !cfg.fill || !Odd(OnesBefore(cfg, s, FirstOfRow(k, cfg.h))) || (cfg.ife && Raw(cfg, s, k) == Word(0xFFFF))
  }

  lemma SameAtIff(cfg: Config, s: Latches, k: nat)
    requires cfg.Valid()
    ensures FastWord(cfg, s, k) == ExactWord(cfg, s, k) <==> SameAt(cfg, s, k)
  {
    hide FillWord, Raw, Col;
    FillSameIff(Raw(cfg, s, k), cfg.ife, Carry(cfg, s, FirstOfRow(k, cfg.h), k), Carry(cfg, s, 0, k));
    assert OnesBefore(cfg, s, 0) == 0;
  }

  // ---------- what the engines hold along the way ----------

  /** The registers before word k, with the carry preset at an earlier word. */
  predicate Holds(cfg: Config, s: Latches, w: Latches, from: nat, k: nat)
    requires cfg.Valid()
  {
    && w.adat == s.adat && w.bhold == s.bhold && w.cdat == s.cdat && w.preva == PreviousA(cfg, s, k)
    && (cfg.fill ==> w.fc == Carry(cfg, s, from, k))
  }

  lemma ResultIs(cfg: Config, s: Latches, w: Latches, from: nat, k: nat)
    requires cfg.Valid() && Holds(cfg, s, w, from, k)
    ensures Result(cfg, w, k).word == Stored(cfg, s, from, k)
    ensures cfg.fill ==> Result(cfg, w, k).carry == Carry(cfg, s, from, k + 1)
  {
    hide Mask, Hold, Low, BlitFunc, FillWord, Wide, Col, Ones, PreviousA;
    assert Unfilled(cfg, w, k) == Raw(cfg, s, k);
    FillCarry(Raw(cfg, s, k), cfg.ife, w.fc);
  }

  lemma NothingFetched(cfg: Config, w: Latches, k: nat)
    requires cfg.Valid() && |w.mem| > 0 && !cfg.HasSource()
    ensures Fetch(cfg, w, k) == w
  {
  }

  /** The first n words of the fast engine, in order. */
  function FastWords(cfg: Config, s: Latches, n: nat): (ws: seq<Word>)
    requires cfg.Valid()
    ensures |ws| == n
  {
    seq(n, k requires 0 <= k < n => FastWord(cfg, s, k))
  }

  function ExactWords(cfg: Config, s: Latches, n: nat): (ws: seq<Word>)
    requires cfg.Valid()
    ensures |ws| == n
  {
    seq(n, k requires 0 <= k < n => ExactWord(cfg, s, k))
  }

  predicate AllZero(ws: seq<Word>) {
    forall k :: 0 <= k < |ws| ==> ws[k] == Word(0)
  }

  /** Memory after words have been written to the places of channel D, one after the other. */
  function Written(cfg: Config, mem: seq<Word>, ws: seq<Word>): (r: seq<Word>)
    requires |mem| > 0 && cfg.h > 0
    ensures |r| == |mem|
  {
    if |ws| == 0 then mem else
      var n := |ws| - 1;
      Write(Written(cfg, mem, ws[..n]), Addr(cfg, cfg.d, n), ws[n])
  }

  lemma MoreWords(cfg: Config, s: Latches, n: nat)
    requires cfg.Valid()
    ensures FastWords(cfg, s, n + 1) == FastWords(cfg, s, n) + [FastWord(cfg, s, n)]
    ensures ExactWords(cfg, s, n + 1) == ExactWords(cfg, s, n) + [ExactWord(cfg, s, n)]
  {
    hide FastWord, ExactWord;
  }

  lemma OneMoreWritten(cfg: Config, mem: seq<Word>, ws: seq<Word>, w: Word)
    requires |mem| > 0 && cfg.h > 0
    ensures Written(cfg, mem, ws + [w]) == Write(Written(cfg, mem, ws), Addr(cfg, cfg.d, |ws|), w)
  {
    hide Write, Addr;
    assert (ws + [w])[..|ws|] == ws;
  }

  lemma OneMoreZero(ws: seq<Word>, w: Word)
    ensures AllZero(ws + [w]) <==> AllZero(ws) && w == Word(0)
  {
    var vs := ws + [w];
    assert vs[|ws|] == w;
    if AllZero(vs) {
      forall k | 0 <= k < |ws|
        ensures ws[k] == Word(0)
      {
        assert vs[k] == ws[k];
      }
    }
  }

  lemma FirstOfRowSteps(k: nat, h: nat)
    requires h > 0
    ensures FirstOfRow(k + 1, h) == if Col(k, h) + 1 == h then k + 1 else FirstOfRow(k, h)
    ensures FirstOfRow(0, h) == 0
  {
    hide Col;
    NextWord(k, h);
    FirstWord(h);
  }

  /** One word of the fast engine. */
  lemma WordHolds(cfg: Config, s: Latches, w: Latches, k: nat)
    requires cfg.Valid() && |w.mem| > 0 && !cfg.HasSource() && Holds(cfg, s, w, FirstOfRow(k, cfg.h), k)
    ensures var n := OneWord(cfg, w, k);
      && Holds(cfg, s, n, FirstOfRow(k + 1, cfg.h), k + 1) && n.last == FastWord(cfg, s, k)
      && n.zero == (w.zero && n.last == Word(0)) && n.mem == Store(cfg, w, k).mem
  {
    hide Result, Col, Fetch, Write, Addr, Mask, OneWord, OnesBefore, FirstOfRow, Stored;
    NothingFetched(cfg, w, k);
    Combined(cfg, w, k);
    ResultIs(cfg, s, w, FirstOfRow(k, cfg.h), k);
    FirstOfRowSteps(k, cfg.h);
  }

  /** The fast engine after k words; the last of them is still to be stored. */
  lemma {:induction false} RunHolds(cfg: Config, s: Latches, k: nat)
    requires cfg.Valid() && Fresh(cfg, s) && !cfg.HasSource()
    ensures var w := Run(cfg, s, k); var ws := FastWords(cfg, s, k);
      && Holds(cfg, s, w, FirstOfRow(k, cfg.h), k) && (w.zero <==> AllZero(ws))
      && Store(cfg, w, k).mem == if cfg.d.on then Written(cfg, s.mem, ws) else s.mem
  {
    hide FastWord, FastWords, Holds, OneWord, Write, Addr, AllZero;
    if k == 0 {
      RunBegins(cfg, s);
    } else {
      var n := k - 1;
      RunHolds(cfg, s, n);
      WordHolds(cfg, s, Run(cfg, s, n), n);
      MoreWords(cfg, s, n);
      OneMoreWritten(cfg, s.mem, FastWords(cfg, s, n), FastWord(cfg, s, n));
      OneMoreZero(FastWords(cfg, s, n), FastWord(cfg, s, n));
    }
  }

  lemma RunBegins(cfg: Config, s: Latches)
    requires cfg.Valid() && Fresh(cfg, s)
    ensures Holds(cfg, s, s, FirstOfRow(0, cfg.h), 0) && AllZero([]) && FastWords(cfg, s, 0) == []
  {
    hide Col;
    FirstOfRowSteps(0, cfg.h);
  }

  lemma NothingYet()
    ensures AllZero([])
  {
  }

  /** The cycle exact engine after k words, all of them stored. */
  lemma {:induction false} BareHolds(cfg: Config, s: Latches, k: nat)
    requires cfg.Valid() && Fresh(cfg, s) && !cfg.HasSource()
    ensures var w := BareRun(cfg, s, k); var ws := ExactWords(cfg, s, k);
      Holds(cfg, s, w, 0, k) && (w.zero <==> AllZero(ws)) && w.mem == Written(cfg, s.mem, ws)
  {
    hide ExactWords, Result, Col, Write, Addr, Mask, OnesBefore, AllZero, Stored;
    if k == 0 {
      assert ExactWords(cfg, s, 0) == [];
      NothingYet();
    } else {
      var n := k - 1;
      var w := BareRun(cfg, s, n);
      BareHolds(cfg, s, n);
      ResultIs(cfg, s, w, 0, n);
      MoreWords(cfg, s, n);
      OneMoreWritten(cfg, s.mem, ExactWords(cfg, s, n), ExactWord(cfg, s, n));
      OneMoreZero(ExactWords(cfg, s, n), ExactWord(cfg, s, n));
    }
  }

  // ---------- memory ----------

  /** The place of word k. */
  function Place(cfg: Config, size: nat, k: nat): (c: nat)
    requires cfg.h > 0 && size > 0
    ensures c < size
  {
    Cell(size, Addr(cfg, cfg.d, k))
  }

  /** No later one of the first n words goes to the place of word k. */
  ghost predicate Remains(cfg: Config, size: nat, k: nat, n: nat)
    requires cfg.h > 0 && size > 0
  {
    forall j: nat :: k < j < n ==> Place(cfg, size, j) != Place(cfg, size, k)
  }

  lemma LastWritten(cfg: Config, mem: seq<Word>, ws: seq<Word>)
    requires |mem| > 0 && cfg.h > 0 && |ws| > 0
    ensures var n := |ws| - 1; Written(cfg, mem, ws) == Written(cfg, mem, ws[..n])[Place(cfg, |mem|, n) := ws[n]]
  {
    hide Addr, Cell;
  }

  lemma {:induction false} RemainingWord(cfg: Config, mem: seq<Word>, ws: seq<Word>, k: nat)
    requires |mem| > 0 && cfg.h > 0 && k < |ws| && Remains(cfg, |mem|, k, |ws|)
    ensures Written(cfg, mem, ws)[Place(cfg, |mem|, k)] == ws[k]
    decreases |ws|
  {
    hide Place, Written;
    var n := |ws| - 1;
    LastWritten(cfg, mem, ws);
    if k < n {
      RemainingWord(cfg, mem, ws[..n], k);
    }
  }

  lemma {:induction false} ElsewhereKept(cfg: Config, mem: seq<Word>, ws: seq<Word>, c: nat)
    requires |mem| > 0 && cfg.h > 0 && c < |mem| && forall k: nat :: k < |ws| ==> Place(cfg, |mem|, k) != c
    ensures Written(cfg, mem, ws)[c] == mem[c]
    decreases |ws|
  {
    hide Place;
    if |ws| > 0 {
      LastWritten(cfg, mem, ws);
      ElsewhereKept(cfg, mem, ws[..|ws| - 1], c);
    }
  }

  /** Among the words that go to a place there is a last one. */
  lemma {:induction false} LastAt(cfg: Config, size: nat, n: nat, c: nat) returns (k: nat)
    requires cfg.h > 0 && size > 0 && exists j: nat :: j < n && Place(cfg, size, j) == c
    ensures k < n && Place(cfg, size, k) == c && Remains(cfg, size, k, n)
  {
    hide Place;
    if Place(cfg, size, n - 1) == c {
      k := n - 1;
    } else {
      k := LastAt(cfg, size, n - 1, c);
    }
  }

  /** Two series of words leave the same memory if and only if they agree in the words that are not overwritten. */
  lemma SameMemoryIff(cfg: Config, mem: seq<Word>, vs: seq<Word>, ws: seq<Word>)
    requires |mem| > 0 && cfg.h > 0 && |vs| == |ws|
    ensures Written(cfg, mem, vs) == Written(cfg, mem, ws) <==>
      forall k: nat :: k < |ws| && Remains(cfg, |mem|, k, |ws|) ==> vs[k] == ws[k]
  {
    hide Place, Remains, Written;
    var n, x, y := |ws|, Written(cfg, mem, vs), Written(cfg, mem, ws);
    forall k: nat | k < n && Remains(cfg, |mem|, k, n)
      ensures x[Place(cfg, |mem|, k)] == vs[k] && y[Place(cfg, |mem|, k)] == ws[k]
    {
      RemainingWord(cfg, mem, vs, k);
      RemainingWord(cfg, mem, ws, k);
    }
    if forall k: nat :: k < n && Remains(cfg, |mem|, k, n) ==> vs[k] == ws[k] {
      forall c | 0 <= c < |mem|
        ensures x[c] == y[c]
      {
        if j: nat :| j < n && Place(cfg, |mem|, j) == c {
          var k := LastAt(cfg, |mem|, n, c);
          assert x[Place(cfg, |mem|, k)] == vs[k];
        } else {
          ElsewhereKept(cfg, mem, vs, c);
          ElsewhereKept(cfg, mem, ws, c);
        }
      }
    }
  }

  /** The two engines agree in every word that is not overwritten later. */
  ghost predicate SameWhereKept(cfg: Config, s: Latches)
    requires cfg.Valid() && |s.mem| > 0
  {
    forall k: nat :: k < cfg.Words() && Remains(cfg, |s.mem|, k, cfg.Words()) ==> SameAt(cfg, s, k)
  }

  lemma WholeWords(cfg: Config, s: Latches)
    requires cfg.Valid() && Fresh(cfg, s) && !cfg.HasSource()
    ensures var w, ws := Whole(cfg, s), FastWords(cfg, s, cfg.Words());
      && w.adat == s.adat && w.bhold == s.bhold && w.cdat == s.cdat && (w.zero <==> AllZero(ws))
      && w.mem == if cfg.d.on then Written(cfg, s.mem, ws) else s.mem
  {
    hide Run, FastWords, Config.Words, Write, Addr, Carry, AllZero, Written;
    RunHolds(cfg, s, cfg.Words());
  }

  lemma ExactlyWords(cfg: Config, s: Latches)
    requires cfg.Valid() && Fresh(cfg, s) && !cfg.HasSource() && cfg.d.on
    ensures var w, ws := Exact(cfg, s), ExactWords(cfg, s, cfg.Words());
      && w.adat == s.adat && w.bhold == s.bhold && w.cdat == s.cdat && (w.zero <==> AllZero(ws))
      && w.mem == Written(cfg, s.mem, ws)
  {
    hide BareRun, ExactWords, Config.Words, Carry, AllZero, Written;
    BareHolds(cfg, s, cfg.Words());
  }

  /** A blit without a source, filling or not, of any size, and wherever it stores: both engines leave the same memory
      if and only if every word that is not overwritten has an even number of bits set in the rows before its own, or
      is filled inclusively and all ones. */
  lemma MemoryIff(cfg: Config, s: Latches)
    requires cfg.Valid() && Fresh(cfg, s) && !cfg.HasSource() && cfg.d.on
    ensures Whole(cfg, s).mem == Exact(cfg, s).mem <==> SameWhereKept(cfg, s)
  {
    hide Whole, Exact, FastWord, ExactWord, Config.Words, Written, Remains, SameAt;
    var n := cfg.Words();
    WholeWords(cfg, s);
    ExactlyWords(cfg, s);
    SameMemoryIff(cfg, s.mem, FastWords(cfg, s, n), ExactWords(cfg, s, n));
    forall k: nat | k < n
      ensures FastWords(cfg, s, n)[k] == ExactWords(cfg, s, n)[k] <==> SameAt(cfg, s, k)
    {
      SameAtIff(cfg, s, k);
    }
  }

  // ---------- rows that close ----------

  /** The words before the start of every row have an even number of bits set. */
  ghost predicate RowsClose(cfg: Config, s: Latches)
    requires cfg.Valid()
  {
    forall k: nat :: 0 < k < cfg.Words() && Col(k, cfg.h) == 0 ==> !Odd(OnesBefore(cfg, s, k))
  }

  /** No two words go to the same place. */
  ghost predicate Apart(cfg: Config, size: nat)
    requires cfg.h > 0 && size > 0
  {
    forall j: nat, k: nat :: j < k < cfg.Words() ==> Place(cfg, size, k) != Place(cfg, size, j)
  }

  lemma StartsRow(k: nat, h: nat)
    requires h > 0
    ensures Col(FirstOfRow(k, h), h) == 0
    ensures Col(k, h) == 0 ==> FirstOfRow(k, h) == k
  {
    SplitWord(FirstOfRow(k, h), h, 0, k / h);
  }

  /** An exclusive fill whose words go to different places agrees if and only if every row is entered with an even
      number of bits set before it. */
  lemma ExclusiveFillIff(cfg: Config, s: Latches)
    requires cfg.Valid() && Fresh(cfg, s) && !cfg.HasSource() && cfg.d.on && cfg.fill && !cfg.ife
    requires Apart(cfg, |s.mem|)
    ensures Whole(cfg, s).mem == Exact(cfg, s).mem <==> RowsClose(cfg, s)
  {
    hide Whole, Exact, Place, Config.Words, Raw, OnesBefore, Col, FirstOfRow;
    MemoryIff(cfg, s);
    forall k: nat
      ensures Col(FirstOfRow(k, cfg.h), cfg.h) == 0 && (Col(k, cfg.h) == 0 ==> FirstOfRow(k, cfg.h) == k)
    {
      StartsRow(k, cfg.h);
    }
    assert !Odd(OnesBefore(cfg, s, 0)) by { NothingBefore(cfg, s); }
    if RowsClose(cfg, s) {
      forall k: nat | k < cfg.Words()
        ensures SameAt(cfg, s, k)
      {
        assert 0 < FirstOfRow(k, cfg.h) ==> !Odd(OnesBefore(cfg, s, FirstOfRow(k, cfg.h)));
      }
    }
    if SameWhereKept(cfg, s) {
      forall k: nat | 0 < k < cfg.Words() && Col(k, cfg.h) == 0
        ensures !Odd(OnesBefore(cfg, s, k))
      {
        assert Remains(cfg, |s.mem|, k, cfg.Words());
        assert SameAt(cfg, s, k);
      }
    }
  }

  lemma NothingBefore(cfg: Config, s: Latches)
    requires cfg.Valid()
    ensures OnesBefore(cfg, s, 0) == 0
  {
  }

  /** Every row that is entered with an odd number of bits set before it is all ones. */
  ghost predicate OddRowsFull(cfg: Config, s: Latches)
    requires cfg.Valid()
  {
    forall k: nat :: k < cfg.Words() && Odd(OnesBefore(cfg, s, FirstOfRow(k, cfg.h))) ==> Raw(cfg, s, k) == Word(0xFFFF)
  }

  lemma InclusiveFillIff(cfg: Config, s: Latches)
    requires cfg.Valid() && Fresh(cfg, s) && !cfg.HasSource() && cfg.d.on && cfg.fill && cfg.ife
    requires Apart(cfg, |s.mem|)
    ensures Whole(cfg, s).mem == Exact(cfg, s).mem <==> OddRowsFull(cfg, s)
  {
    hide Whole, Exact, Place, Config.Words, Raw, OnesBefore, FirstOfRow;
    MemoryIff(cfg, s);
    if SameWhereKept(cfg, s) {
      forall k: nat | k < cfg.Words() && Odd(OnesBefore(cfg, s, FirstOfRow(k, cfg.h)))
        ensures Raw(cfg, s, k) == Word(0xFFFF)
      {
        assert Remains(cfg, |s.mem|, k, cfg.Words());
        assert SameAt(cfg, s, k);
      }
    }
    if OddRowsFull(cfg, s) {
      forall k: nat | k < cfg.Words()
        ensures SameAt(cfg, s, k)
      {
      }
    }
  }

  /** Both engines fill every word with the same carry. */
  ghost predicate SameCarries(cfg: Config, s: Latches)
    requires cfg.Valid() && |s.mem| > 0
  {
    forall k: nat :: k < cfg.Words() ==> Run(cfg, s, k).fc == BareRun(cfg, s, k).fc
  }

  /** In terms of the machines: the carries they fill with are the same at every word. */
  lemma RowsCloseIff(cfg: Config, s: Latches)
    requires cfg.Valid() && Fresh(cfg, s) && !cfg.HasSource() && cfg.fill
    ensures RowsClose(cfg, s) <==> SameCarries(cfg, s)
  {
    hide OneWord, BareWord, Config.Words, OnesBefore, Col, FirstOfRow, FastWords, ExactWords, Written, AllZero,
         PreviousA;
    NothingBefore(cfg, s);
    forall k: nat | k < cfg.Words()
      ensures Run(cfg, s, k).fc == BareRun(cfg, s, k).fc <==> !Odd(OnesBefore(cfg, s, FirstOfRow(k, cfg.h)))
      ensures Col(FirstOfRow(k, cfg.h), cfg.h) == 0 && (Col(k, cfg.h) == 0 ==> FirstOfRow(k, cfg.h) == k)
    {
      RunHolds(cfg, s, k);
      BareHolds(cfg, s, k);
      StartsRow(k, cfg.h);
    }
    if RowsClose(cfg, s) {
      forall k: nat | k < cfg.Words()
        ensures Run(cfg, s, k).fc == BareRun(cfg, s, k).fc
      {
        assert 0 < FirstOfRow(k, cfg.h) ==> !Odd(OnesBefore(cfg, s, FirstOfRow(k, cfg.h)));
      }
    }
  }

  /** All rows but the first combine to the same words. */
  lemma RowsRepeat(cfg: Config, s: Latches, k: nat)
    requires cfg.Valid() && k > 0
    ensures Raw(cfg, s, k + cfg.h) == Raw(cfg, s, k)
  {
    hide Mask, Unfilled, Col;
    NextRow(k, cfg.h);
    NextRow(k - 1, cfg.h);
    SameColumn(cfg, s.(preva := PreviousA(cfg, s, k)), k, k + cfg.h);
  }

  lemma SameColumn(cfg: Config, w: Latches, j: nat, k: nat)
    requires cfg.Valid() && Col(j, cfg.h) == Col(k, cfg.h)
    ensures Unfilled(cfg, w, j) == Unfilled(cfg, w, k)
  {
    hide Mask, Hold, Low, BlitFunc, Wide, Col;
  }

  lemma NextRow(k: nat, h: nat)
    requires h > 0
    ensures Col(k + h, h) == Col(k, h)
  {
    SplitWord(k + h, h, k % h, k / h + 1);
  }

  /** The rows after the first have the same number of bits set each. */
  lemma {:induction false} RowsEqual(cfg: Config, s: Latches, k: nat, i: nat)
    requires cfg.Valid() && k > 0
    ensures OnesBefore(cfg, s, k + cfg.h + i) - OnesBefore(cfg, s, k + cfg.h) ==
      OnesBefore(cfg, s, k + i) - OnesBefore(cfg, s, k)
  {
    hide Raw, Ones;
    if i > 0 {
      RowsEqual(cfg, s, k, i - 1);
      RowsRepeat(cfg, s, k + i - 1);
    }
  }

  lemma RowStarts(k: nat, h: nat)
    requires h > 0
    ensures Col(h, h) == 0 && Col(h + h, h) == 0
    ensures k < h + h && Col(k, h) == 0 ==> k == 0 || k == h
    ensures k >= h ==> Col(k - h, h) == Col(k, h)
  {
    SplitWord(h, h, 0, 1);
    SplitWord(h + h, h, 0, 2);
    if k < h {
      SplitWord(k, h, k, 0);
    } else {
      NextRow(k - h, h);
      if k < h + h {
        SplitWord(k - h, h, k - h, 0);
      }
    }
  }

  /** So two rows tell about all of them. */
  lemma {:induction false} TwoRowsTell(cfg: Config, s: Latches, k: nat)
    requires cfg.Valid() && k > 0 && Col(k, cfg.h) == 0
    requires !Odd(OnesBefore(cfg, s, cfg.h))
    requires k > cfg.h ==> !Odd(OnesBefore(cfg, s, cfg.h + cfg.h))
    ensures !Odd(OnesBefore(cfg, s, k))
  {
    hide OnesBefore, Col;
    var h := cfg.h;
    RowStarts(k, h);
    if k > h {
      RowStarts(k - h, h);
      TwoRowsTell(cfg, s, k - h);
      if k != h + h {
        RowStarts(k - h - h, h);
        if k > h + h + h {
          TwoRowsTell(cfg, s, k - h - h);
        }
        RowsEqual(cfg, s, k - h - h, h);
      }
    }
  }

  lemma RowsFit(h: nat, v: nat)
    requires h > 0 && v > 0
    ensures v == 1 ==> h * v == h
    ensures v == 2 ==> h * v == h + h
    ensures v > 2 ==> h * v > h + h
  {
    if v > 2 {
      assert h * v == h * (v - 2) + h + h && h * (v - 2) > 0;
    }
  }

  /** All rows close if and only if the first does, when there is a second, and the second, when there is a third. */
  lemma RowsCloseEarly(cfg: Config, s: Latches)
    requires cfg.Valid()
    ensures RowsClose(cfg, s) <==>
      && (cfg.v > 1 ==> !Odd(OnesBefore(cfg, s, cfg.h))) && (cfg.v > 2 ==> !Odd(OnesBefore(cfg, s, cfg.h + cfg.h)))
  {
    hide OnesBefore, Config.Words, Col;
    WordCount(cfg);
    RowsFit(cfg.h, cfg.v);
    RowStarts(0, cfg.h);
    if (cfg.v > 1 ==> !Odd(OnesBefore(cfg, s, cfg.h))) && (cfg.v > 2 ==> !Odd(OnesBefore(cfg, s, cfg.h + cfg.h))) {
      forall k: nat | 0 < k < cfg.Words() && Col(k, cfg.h) == 0
        ensures !Odd(OnesBefore(cfg, s, k))
      {
        RowStarts(k, cfg.h);
        if cfg.v > 1 {
          TwoRowsTell(cfg, s, k);
        }
      }
    }
  }

  // ---------- the zero flag ----------

  /** An unfilled word that comes out as 0: the carry can only come in where it has just been preset. */
  predicate Blank(cfg: Config, raw: Word, preset: bool) {
    var carry := cfg.fill && cfg.fci && preset;
    raw == (if carry then Word(1) else Word(0)) && !(carry && cfg.ife)
  }

  /** The first n words of the registers leave nothing, with the carry preset in every row. */
  ghost predicate FastBlank(cfg: Config, s: Latches, n: nat)
    requires cfg.Valid()
  {
    forall k: nat :: k < n ==> Blank(cfg, Raw(cfg, s, k), Col(k, cfg.h) == 0)
  }

  /** The same with the carry preset once. */
  ghost predicate ExactBlank(cfg: Config, s: Latches, n: nat)
    requires cfg.Valid()
  {
    forall k: nat :: k < n ==> Blank(cfg, Raw(cfg, s, k), k == 0)
  }

  lemma OnesOfSpecial()
    ensures Ones(Word(0)) == 0 && Ones(Word(1)) == 1
  {
    hide WordBits;
    forall i: nat | i < 16
      ensures !WordBits(Word(0))[i] && (WordBits(Word(1))[i] <==> i == 0)
    {
      SpecialBits(i);
    }
    NoBitsSet(WordBits(Word(0)));
    FirstBitSet(WordBits(Word(1)));
  }

  /** While nothing is left, no carry comes in but the preset one. */
  lemma {:induction false} BlankCarry(cfg: Config, s: Latches, from: nat, k: nat)
    requires cfg.Valid() && cfg.fill && from <= k
    requires forall j: nat :: from <= j < k ==> Blank(cfg, Raw(cfg, s, j), j == from)
    ensures Carry(cfg, s, from, k) == (cfg.fci && k == from)
    decreases k
  {
    hide Raw, Ones;
    if k > from {
      BlankCarry(cfg, s, from, k - 1);
      OnesOfSpecial();
      assert Blank(cfg, Raw(cfg, s, k - 1), k - 1 == from);
    }
  }

  lemma BlankWord(cfg: Config, s: Latches, from: nat, k: nat)
    requires cfg.Valid() && from <= k
    requires forall j: nat :: from <= j < k ==> Blank(cfg, Raw(cfg, s, j), j == from)
    ensures Stored(cfg, s, from, k) == Word(0) <==> Blank(cfg, Raw(cfg, s, k), k == from)
  {
    hide Raw, Carry, FillWord;
    if cfg.fill {
      BlankCarry(cfg, s, from, k);
      FillZeroIff(Raw(cfg, s, k), cfg.ife, Carry(cfg, s, from, k));
    }
  }

  lemma ColumnsOfRow(k: nat, h: nat)
    requires h > 0
    ensures forall j: nat :: FirstOfRow(k, h) <= j <= k ==> (Col(j, h) == 0 <==> j == FirstOfRow(k, h))
  {
    Recompose(k, h);
    forall j: nat | FirstOfRow(k, h) <= j <= k
      ensures Col(j, h) == j - FirstOfRow(k, h)
    {
      SplitWord(j, h, j - FirstOfRow(k, h), k / h);
    }
  }

  lemma {:induction false} FastZeroIff(cfg: Config, s: Latches, n: nat)
    requires cfg.Valid()
    ensures AllZero(FastWords(cfg, s, n)) <==> FastBlank(cfg, s, n)
  {
    hide Raw, Col, FirstOfRow, Stored, AllZero, FastWords, Blank;
    if n == 0 {
      assert FastWords(cfg, s, 0) == [];
      NothingYet();
    } else {
      var k := n - 1;
      FastZeroIff(cfg, s, k);
      MoreWords(cfg, s, k);
      OneMoreZero(FastWords(cfg, s, k), FastWord(cfg, s, k));
      ColumnsOfRow(k, cfg.h);
      if FastBlank(cfg, s, k) {
        BlankWord(cfg, s, FirstOfRow(k, cfg.h), k);
      }
    }
  }

  lemma {:induction false} ExactZeroIff(cfg: Config, s: Latches, n: nat)
    requires cfg.Valid()
    ensures AllZero(ExactWords(cfg, s, n)) <==> ExactBlank(cfg, s, n)
  {
    hide Raw, Stored, AllZero, ExactWords, Blank;
    if n == 0 {
      assert ExactWords(cfg, s, 0) == [];
      NothingYet();
    } else {
      var k := n - 1;
      ExactZeroIff(cfg, s, k);
      MoreWords(cfg, s, k);
      OneMoreZero(ExactWords(cfg, s, k), ExactWord(cfg, s, k));
      if ExactBlank(cfg, s, k) {
        BlankWord(cfg, s, 0, k);
      }
    }
  }

  /** Both zero flags are set, or neither. */
  ghost predicate SameFlags(cfg: Config, s: Latches)
    requires cfg.Valid()
  {
    FastBlank(cfg, s, cfg.Words()) <==> ExactBlank(cfg, s, cfg.Words())
  }

  lemma ZeroFlagsIff(cfg: Config, s: Latches)
    requires cfg.Valid() && Fresh(cfg, s) && !cfg.HasSource() && cfg.d.on
    ensures Whole(cfg, s).zero == Exact(cfg, s).zero <==> SameFlags(cfg, s)
  {
    hide Whole, Exact, FastBlank, ExactBlank, AllZero, Config.Words, FastWords, ExactWords;
    WholeWords(cfg, s);
    ExactlyWords(cfg, s);
    FastZeroIff(cfg, s, cfg.Words());
    ExactZeroIff(cfg, s, cfg.Words());
  }

  /** Only a preset carry in an exclusive fill of several rows can tell the flags apart. */
  lemma FlagsAgree(cfg: Config, s: Latches)
    requires cfg.Valid() && (!cfg.fill || !cfg.fci || cfg.ife || cfg.v == 1)
    ensures SameFlags(cfg, s)
  {
    hide Raw, Col, Config.Words;
    WordCount(cfg);
    FirstWord(cfg.h);
    if cfg.fill && cfg.fci && cfg.ife {
      assert !Blank(cfg, Raw(cfg, s, 0), Col(0, cfg.h) == 0) && !Blank(cfg, Raw(cfg, s, 0), 0 == 0);
    } else if cfg.v == 1 {
      forall k: nat | k < cfg.Words()
        ensures Col(k, cfg.h) == 0 <==> k == 0
      {
        SplitWord(k, cfg.h, k, 0);
      }
    }
  }

  /** Without any channel memory agrees, and the zero flags do if and only if the registers leave nothing. */
  lemma NoChannelIff(cfg: Config, s: Latches)
    requires cfg.Valid() && Fresh(cfg, s) && !cfg.HasSource() && !cfg.d.on
    ensures Whole(cfg, s).zero == Exact(cfg, s).zero <==> FastBlank(cfg, s, cfg.Words())
    ensures Whole(cfg, s).mem == Exact(cfg, s).mem
  {
    hide Whole, FastBlank, AllZero, Config.Words, FastWords;
    WholeWords(cfg, s);
    FastZeroIff(cfg, s, cfg.Words());
  }

  /** Clears and other blits that do not fill, and fills of one row, agree in everything. */
  lemma ClearsAgree(cfg: Config, s: Latches)
    requires cfg.Valid() && Fresh(cfg, s) && !cfg.HasSource() && cfg.d.on && (!cfg.fill || cfg.v == 1)
    ensures var x, y := Whole(cfg, s), Exact(cfg, s);
      x.mem == y.mem && x.adat == y.adat && x.bhold == y.bhold && x.cdat == y.cdat && x.zero == y.zero
  {
    hide Whole, Exact, Config.Words, Remains, Raw, OnesBefore, Written, FastWords, ExactWords, SameFlags, FirstOfRow;
    MemoryIff(cfg, s);
    ZeroFlagsIff(cfg, s);
    FlagsAgree(cfg, s);
    WholeWords(cfg, s);
    ExactlyWords(cfg, s);
    NothingBefore(cfg, s);
    forall k: nat | k < cfg.Words()
      ensures SameAt(cfg, s, k)
    {
      if cfg.v == 1 {
        WordCount(cfg);
        OneRow(k, cfg.h);
      }
    }
  }

  lemma OneRow(k: nat, h: nat)
    requires h > 0 && k < h
    ensures FirstOfRow(k, h) == 0
  {
    SplitWord(k, h, k, 0);
  }
}
