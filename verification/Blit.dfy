/** What one blit means: word after word, read the sources, store the previous result, combine.  Both engines of the
    blitter are proved against it. */
module Blit {
  import opened BlitterWords
  import opened BlitterFill

  /** One DMA channel: enabled or not, start pointer, modulo. */
  datatype Channel = Channel(on: bool, ptr: nat, modulo: int)

  /** The registers of a blit that do not change while it runs. */
  datatype Config = Config(
    a: Channel, b: Channel, c: Channel, d: Channel,
    h: nat, v: nat, afwm: Word, alwm: Word, ashift: nat, bshift: nat, mt: bv8,
    desc: bool, fill: bool, ife: bool, fci: bool)
  {
    /** Sizes and shifts as the registers can hold them. */
    ghost predicate Valid() {
      1 <= h <= 2048 && 1 <= v <= 32768 && ashift < 16 && bshift < 16
    }

    function Words(): nat {
      h * v
    }

    /** At least one source channel is enabled. */
    predicate HasSource() {
      a.on || b.on || c.on
    }
  }

  /** The four pointer registers. */
  datatype Pointers = Pointers(a: nat, b: nat, c: nat, d: nat)

  /** Everything a blit carries from word to word: chip memory, data registers, the two shifters' previous words, fill
      carry, zero flag and the result that is still to be stored. */
  datatype Latches = Latches(
    mem: seq<Word>, adat: Word, cdat: Word, bhold: Word, preva: Word, prevb: Word, fc: bool, zero: bool, last: Word)

  // ---------- counters and addresses ----------

  function Col(k: nat, h: nat): nat
    requires h > 0
  {
    k % h
  }

  function Row(k: nat, h: nat): nat
    requires h > 0
  {
    k / h
  }

  lemma FirstWord(h: nat)
    requires h > 0
    ensures Col(0, h) == 0 && Row(0, h) == 0
  {
  }

  lemma Times(d: int, h: nat)
    ensures d >= 1 ==> d * h >= h
    ensures d <= -1 ==> d * h + h <= 0
  {
  }

  lemma SplitWord(k: nat, h: nat, i: nat, j: nat)
    requires i < h && k == j * h + i
    ensures Col(k, h) == i && Row(k, h) == j
  {
    var q, r := k / h, k % h;
    assert k == q * h + r;
    assert (q - j) * h == i - r;
    Times(q - j, h);
  }

  /** Counting one word: the column advances, and wraps into the next row. */
  lemma NextWord(k: nat, h: nat)
    requires h > 0
    ensures Col(k, h) < h
    ensures Col(k + 1, h) == if Col(k, h) + 1 == h then 0 else Col(k, h) + 1
    ensures Row(k + 1, h) == if Col(k, h) + 1 == h then Row(k, h) + 1 else Row(k, h)
  {
    var q, r := k / h, k % h;
    assert k == q * h + r;
    if r + 1 == h {
      assert k + 1 == (q + 1) * h + 0;
      SplitWord(k + 1, h, 0, q + 1);
    } else {
      SplitWord(k + 1, h, r + 1, q);
    }
  }

  lemma Recompose(k: nat, h: nat)
    requires h > 0
    ensures k == Row(k, h) * h + Col(k, h) && Col(k, h) < h
  {
  }

  /** The row counter reaches v exactly when all words have been counted. */
  lemma LastWord(k: nat, h: nat, v: nat)
    requires h > 0
    ensures Row(k, h) < v <==> k < h * v
    ensures k == h * v ==> Row(k, h) == v && Col(k, h) == 0
  {
    hide Row, Col;
    Recompose(k, h);
    var q := Row(k, h);
    if q < v {
      assert (q + 1) * h <= v * h;
    } else {
      assert v * h <= q * h;
    }
    if k == h * v {
      SplitWord(k, h, 0, v);
    }
  }

  lemma RowMonotone(i: nat, j: nat, h: nat)
    requires h > 0 && i <= j
    ensures Row(i, h) <= Row(j, h)
    decreases j - i
  {
    hide Row, Col;
    if i < j {
      NextWord(i, h);
      RowMonotone(i + 1, j, h);
    }
  }

  lemma WordCount(cfg: Config)
    requires cfg.Valid()
    ensures cfg.Words() == cfg.h * cfg.v > 0
  {
  }

  /** Pointers are 32 bits wide. */
  function Wrap(x: int): nat {
    x % 0x1_0000_0000
  }

  function Mult(desc: bool): int {
    if desc then -1 else 1
  }

  /** A pointer after so many word steps and so many modulos. */
  function PtrAt(ch: Channel, desc: bool, words: nat, rows: nat): nat {
    Wrap(ch.ptr + Mult(desc) * (2 * words + ch.modulo * rows))
  }

  /** The address of word k. */
  function Addr(cfg: Config, ch: Channel, k: nat): nat
    requires cfg.h > 0
  {
    PtrAt(ch, cfg.desc, k, Row(k, cfg.h))
  }

  /** Where a channel's pointer stands after the whole blit. */
  function FinalPtr(cfg: Config, ch: Channel): nat {
    if ch.on then Wrap(ch.ptr + Mult(cfg.desc) * ((cfg.h * 2 + ch.modulo) * cfg.v)) else ch.ptr
  }

  lemma WrapAdd(x: int, y: int)
    ensures Wrap(Wrap(x) + y) == Wrap(x + y)
  {
  }

  lemma PtrStart(ch: Channel, desc: bool)
    requires ch.ptr < 0x1_0000_0000
    ensures PtrAt(ch, desc, 0, 0) == ch.ptr
  {
  }

  lemma PtrStep(ch: Channel, desc: bool, words: nat, rows: nat)
    ensures PtrAt(ch, desc, words + 1, rows) == Wrap(PtrAt(ch, desc, words, rows) + Mult(desc) * 2)
    ensures PtrAt(ch, desc, words, rows + 1) == Wrap(PtrAt(ch, desc, words, rows) + Mult(desc) * ch.modulo)
  {
    hide Wrap, Mult;
    var m := Mult(desc);
    var at := ch.ptr + m * (2 * words + ch.modulo * rows);
    WrapAdd(at, m * 2);
    WrapAdd(at, m * ch.modulo);
    assert m * (2 * (words + 1) + ch.modulo * rows) == m * (2 * words + ch.modulo * rows) + m * 2;
    assert ch.modulo * (rows + 1) == ch.modulo * rows + ch.modulo;
    assert m * (2 * words + ch.modulo * (rows + 1)) == m * (2 * words + ch.modulo * rows) + m * ch.modulo;
  }

  /** Stepping through all words and modulos ends at the closed form. */
  lemma PtrEnd(cfg: Config, ch: Channel)
    requires ch.on
    ensures PtrAt(ch, cfg.desc, cfg.Words(), cfg.v) == FinalPtr(cfg, ch)
  {
    assert 2 * (cfg.h * cfg.v) + ch.modulo * cfg.v == (cfg.h * 2 + ch.modulo) * cfg.v;
  }

  // ---------- memory ----------

  /** Chip memory repeats; its size is a power of two, so masking the address is taking it modulo the size. */
  function Cell(size: nat, addr: nat): nat
    requires size > 0
  {
    (addr / 2) % size
  }

  function Read(mem: seq<Word>, addr: nat): Word
    requires |mem| > 0
  {
    mem[Cell(|mem|, addr)]
  }

  function Write(mem: seq<Word>, addr: nat, w: Word): (r: seq<Word>)
    requires |mem| > 0
    ensures |r| == |mem|
  {
    mem[Cell(|mem|, addr) := w]
  }

  // ---------- one word ----------

  /** The first word of a row is masked with one register, the last with another; a row of one word with both. */
  function Mask(cfg: Config, col: nat, w: Word): Word {
    var first := if col == 0 then And(w, cfg.afwm) else w;
    if col == cfg.h - 1 then And(first, cfg.alwm) else first
  }

  function FetchA(cfg: Config, s: Latches, k: nat): Latches
    requires |s.mem| > 0 && cfg.h > 0
  {
    if cfg.a.on then s.(adat := Read(s.mem, Addr(cfg, cfg.a, k))) else s
  }

  function FetchB(cfg: Config, s: Latches, k: nat): Latches
    requires |s.mem| > 0 && cfg.h > 0 && cfg.bshift < 16
  {
    if cfg.b.on then
      var b := Read(s.mem, Addr(cfg, cfg.b, k));
      s.(bhold := Low(Hold(cfg.desc, s.prevb, b, cfg.bshift)), prevb := b)
    else s
  }

  function FetchC(cfg: Config, s: Latches, k: nat): Latches
    requires |s.mem| > 0 && cfg.h > 0
  {
    if cfg.c.on then s.(cdat := Read(s.mem, Addr(cfg, cfg.c, k))) else s
  }

  /** Store the result of word k - 1. */
  function Store(cfg: Config, s: Latches, k: nat): Latches
    requires |s.mem| > 0 && cfg.h > 0
  {
    if cfg.d.on && k > 0 then s.(mem := Write(s.mem, Addr(cfg, cfg.d, k - 1), s.last)) else s
  }

  /** The minterm of the three held words. */
  function Unfilled(cfg: Config, s: Latches, k: nat): Word
    requires cfg.h > 0 && cfg.ashift < 16
  {
    var a := Mask(cfg, Col(k, cfg.h), s.adat);
    Low(BlitFunc(Hold(cfg.desc, s.preva, a, cfg.ashift), Wide(s.bhold), Wide(s.cdat), cfg.mt))
  }

  /** The same, filled if asked. */
  function Result(cfg: Config, s: Latches, k: nat): FilledWord
    requires cfg.h > 0 && cfg.ashift < 16
  {
    var raw := Unfilled(cfg, s, k);
    if cfg.fill then FillWord(raw, cfg.ife, s.fc) else FilledWord(raw, s.fc)
  }

  function Combine(cfg: Config, s: Latches, k: nat): Latches
    requires cfg.h > 0 && cfg.ashift < 16
  {
    var r := Result(cfg, s, k);
    s.(preva := Mask(cfg, Col(k, cfg.h), s.adat), last := r.word, zero := s.zero && r.word == Word(0),
       fc := if Col(k, cfg.h) + 1 == cfg.h then cfg.fci else r.carry)
  }

  function Fetch(cfg: Config, s: Latches, k: nat): (r: Latches)
    requires |s.mem| > 0 && cfg.Valid()
    ensures r.mem == s.mem
  {
    FetchC(cfg, FetchB(cfg, FetchA(cfg, s, k), k), k)
  }

  function OneWord(cfg: Config, s: Latches, k: nat): (r: Latches)
    requires |s.mem| > 0 && cfg.Valid()
    ensures |r.mem| == |s.mem|
  {
    Combine(cfg, Store(cfg, Fetch(cfg, s, k), k), k)
  }

  /** The first k words of the blit, the last of them not yet stored. */
  function Run(cfg: Config, s: Latches, k: nat): (r: Latches)
    requires |s.mem| > 0 && cfg.Valid()
    ensures |r.mem| == |s.mem|
  {
    if k == 0 then s else OneWord(cfg, Run(cfg, s, k - 1), k - 1)
  }

  /** The whole blit. */
  function Whole(cfg: Config, s: Latches): (r: Latches)
    requires |s.mem| > 0 && cfg.Valid()
    ensures |r.mem| == |s.mem|
  {
    Store(cfg, Run(cfg, s, cfg.Words()), cfg.Words())
  }

  /** Word k of a cycle exact blit without a source: what the registers hold is combined and stored at once, and nothing
      presets the fill carry at the end of a row. */
  function BareWord(cfg: Config, s: Latches, k: nat): (r: Latches)
    requires |s.mem| > 0 && cfg.Valid()
    ensures |r.mem| == |s.mem|
  {
    var r := Result(cfg, s, k);
    s.(mem := Write(s.mem, Addr(cfg, cfg.d, k), r.word), preva := Mask(cfg, Col(k, cfg.h), s.adat),
       zero := s.zero && r.word == Word(0), fc := r.carry)
  }

  function BareRun(cfg: Config, s: Latches, k: nat): (r: Latches)
    requires |s.mem| > 0 && cfg.Valid()
    ensures |r.mem| == |s.mem|
  {
    if k == 0 then s else BareWord(cfg, BareRun(cfg, s, k - 1), k - 1)
  }

  /** The blit as the cycle exact engine performs it: without any channel it only waits. */
  function Exact(cfg: Config, s: Latches): (r: Latches)
    requires |s.mem| > 0 && cfg.Valid()
    ensures |r.mem| == |s.mem|
  {
    if cfg.HasSource() then Whole(cfg, s) else if cfg.d.on then BareRun(cfg, s, cfg.Words()) else s
  }

  /** The state a blit starts from: cleared shifters, zero flag set, fill carry preset. */
  predicate Fresh(cfg: Config, s: Latches) {
    |s.mem| > 0 && s.preva == Word(0) && s.prevb == Word(0) && s.fc == cfg.fci && s.zero
  }

  /** The registers after reading the sources of word k. */
  lemma Fetched(cfg: Config, w: Latches, k: nat)
    requires cfg.Valid() && |w.mem| > 0
    ensures var f := Fetch(cfg, w, k);
      && f.adat == (if cfg.a.on then Read(w.mem, Addr(cfg, cfg.a, k)) else w.adat)
      && f.prevb == (if cfg.b.on then Read(w.mem, Addr(cfg, cfg.b, k)) else w.prevb)
      && f.bhold == (if cfg.b.on then Low(Hold(cfg.desc, w.prevb, f.prevb, cfg.bshift)) else w.bhold)
      && f.cdat == if cfg.c.on then Read(w.mem, Addr(cfg, cfg.c, k)) else w.cdat
  {
    hide Read, Addr, Low, Hold;
  }

  /** Reading the sources leaves the rest. */
  lemma Kept(cfg: Config, w: Latches, k: nat)
    requires cfg.Valid() && |w.mem| > 0
    ensures var f := Fetch(cfg, w, k); f.last == w.last && f.zero == w.zero && f.preva == w.preva && f.fc == w.fc
  {
    hide Read, Addr, Low, Hold;
  }

  /** The registers after word k. */
  lemma Combined(cfg: Config, w: Latches, k: nat)
    requires cfg.Valid() && |w.mem| > 0
    ensures var f := Fetch(cfg, w, k); var n := OneWord(cfg, w, k); var r := Result(cfg, f, k);
      && n.adat == f.adat && n.cdat == f.cdat && n.bhold == f.bhold && n.prevb == f.prevb
      && n.mem == (if cfg.d.on && k > 0 then Write(w.mem, Addr(cfg, cfg.d, k - 1), w.last) else w.mem)
      && n.preva == Mask(cfg, Col(k, cfg.h), f.adat) && n.last == r.word && n.zero == (w.zero && r.word == Word(0))
      && n.fc == if Col(k, cfg.h) + 1 == cfg.h then cfg.fci else r.carry
  {
    hide Read, Write, Addr, Low, Hold, Mask, Col, BlitFunc, FillWord;
    var f := Fetch(cfg, w, k);
    assert f.last == w.last && f.zero == w.zero && f.preva == w.preva && f.fc == w.fc;
    assert Result(cfg, Store(cfg, f, k), k) == Result(cfg, f, k);
  }
}
