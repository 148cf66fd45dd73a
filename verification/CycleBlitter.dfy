/** The cycle exact blitter: one bus cycle at a time, with a two-deep pipeline in front of channel D. */
module CycleBlitter {
  import opened BlitterWords
  import opened BlitterFill
  import opened Blit
  import opened BlitterDiagrams

  /** Data registers, zero flag, shifters and fill carry. */
  datatype Regs = Regs(adat: Word, cdat: Word, bhold: Word, zero: bool, preva: Word, prevb: Word, fc: bool)

  /** Results waiting for channel D. */
  datatype Pipe = Pipe(ddat1: Word, ddat2: Word, use1: bool, use2: bool)

  /** Column and row of the word being combined and of the word being stored, and the source reads since the last
      combination. */
  datatype Counters = Counters(h1: nat, h2: nat, v1: nat, v2: nat, dma: nat)

  // ---------- what the registers hold in a phase, w before word k and n after it ----------

  predicate RegsOk(w: Latches, n: Latches, ph: Phase, r: Regs) {
    && r.adat == (if ph.a then n.adat else w.adat)
    && r.bhold == (if ph.b then n.bhold else w.bhold) && r.prevb == (if ph.b then n.prevb else w.prevb)
    && r.cdat == (if ph.c then n.cdat else w.cdat)
    && r.preva == (if ph.done then n.preva else w.preva)
    && r.zero == (if ph.done then n.zero else w.zero) && r.fc == (if ph.done then n.fc else w.fc)
  }

  predicate PipeOk(cfg: Config, w: Latches, n: Latches, ph: Phase, p: Pipe) {
    && p.use1 == (cfg.d.on && (ph.done || ph.k > 0)) && (p.use1 ==> p.ddat1 == if ph.done then n.last else w.last)
    && p.use2 == (cfg.d.on && ph.done && ph.k > 0 && !ph.d) && (p.use2 ==> p.ddat2 == w.last)
  }

  /** Words combined and words stored. */
  function Combinations(ph: Phase): nat {
    ph.k + Flag(ph.done, 1)
  }

  function Stores(ph: Phase): nat {
    if ph.k == 0 then 0 else if ph.d then ph.k else ph.k - 1
  }

  function SourcePtr(cfg: Config, ch: Channel, ph: Phase, seen: bool): nat
    requires cfg.h > 0
  {
    if ch.on then PtrAt(ch, cfg.desc, ph.k + Flag(seen, 1), Row(Combinations(ph), cfg.h)) else ch.ptr
  }

  predicate PointersOk(cfg: Config, ph: Phase, pt: Pointers)
    requires cfg.h > 0
  {
    && pt.a == SourcePtr(cfg, cfg.a, ph, ph.a) && pt.b == SourcePtr(cfg, cfg.b, ph, ph.b)
    && pt.c == SourcePtr(cfg, cfg.c, ph, ph.c) && pt.d == if cfg.d.on then Addr(cfg, cfg.d, Stores(ph)) else cfg.d.ptr
  }

  predicate CountersOk(cfg: Config, ph: Phase, c: Counters)
    requires cfg.h > 0
  {
    && c.h1 == Col(Combinations(ph), cfg.h) && c.v1 == Row(Combinations(ph), cfg.h)
    && (if cfg.d.on then c.h2 == Col(Stores(ph), cfg.h) && c.v2 == Row(Stores(ph), cfg.h) else c.v2 == cfg.v)
    && c.dma == if ph.done then 0 else Count(ph)
  }

  /** The end of a row of the diagram is the beginning of the next word. */
  lemma RowDone(cfg: Config, w: Latches, ph: Phase, r: Regs, p: Pipe, pt: Pointers, c: Counters)
    requires cfg.Valid() && |w.mem| > 0 && Sound(cfg, ph) && ph.done && ph.d == (cfg.d.on && ph.k > 0)
    requires var n := OneWord(cfg, w, ph.k); RegsOk(w, n, ph, r) && PipeOk(cfg, w, n, ph, p)
    requires PointersOk(cfg, ph, pt) && CountersOk(cfg, ph, c)
    ensures var n := OneWord(cfg, w, ph.k); var m := OneWord(cfg, n, ph.k + 1);
      && RegsOk(n, m, Begin(ph.k + 1), r) && PipeOk(cfg, n, m, Begin(ph.k + 1), p)
      && PointersOk(cfg, Begin(ph.k + 1), pt) && CountersOk(cfg, Begin(ph.k + 1), c)
      && n.mem == if ph.d then n.mem else w.mem
  {
    hide OneWord, Fetch, Col, Row, PtrAt, Read, Write, Low, Hold, Mask, Result;
    Fetched(cfg, w, ph.k);
    Combined(cfg, w, ph.k);
  }

  /** The source registers after word k. */
  lemma SourcesRead(cfg: Config, w: Latches, k: nat)
    requires cfg.Valid() && |w.mem| > 0
    ensures var n := OneWord(cfg, w, k);
      && (cfg.a.on ==> n.adat == Read(w.mem, Addr(cfg, cfg.a, k)))
      && (cfg.b.on ==> n.prevb == Read(w.mem, Addr(cfg, cfg.b, k)))
      && (cfg.b.on ==> n.bhold == Low(Hold(cfg.desc, w.prevb, n.prevb, cfg.bshift)))
      && (cfg.c.on ==> n.cdat == Read(w.mem, Addr(cfg, cfg.c, k)))
  {
    hide OneWord, Fetch, Read, Addr, Low, Hold, Result, Mask, Write;
    Fetched(cfg, w, k);
    Combined(cfg, w, k);
  }

  /** When all sources are read the registers hold what the next word combines. */
  lemma AllRead(cfg: Config, w: Latches, ph: Phase, r: Regs)
    requires cfg.Valid() && |w.mem| > 0 && RegsOk(w, OneWord(cfg, w, ph.k), ph, r)
    requires ph.a == cfg.a.on && ph.b == cfg.b.on && ph.c == cfg.c.on && !ph.done
    ensures var f := Fetch(cfg, w, ph.k); r == Regs(f.adat, f.cdat, f.bhold, w.zero, w.preva, f.prevb, w.fc)
    ensures var f := Fetch(cfg, w, ph.k); var n := OneWord(cfg, w, ph.k);
      f.adat == n.adat && f.cdat == n.cdat && f.bhold == n.bhold && f.prevb == n.prevb
    ensures Col(ph.k, cfg.h) + 1 == cfg.h ==> OneWord(cfg, w, ph.k).fc == cfg.fci
  {
    hide OneWord, Fetch, Col, Row, Read, Write, Low, Hold, Mask, Result;
    Fetched(cfg, w, ph.k);
    Combined(cfg, w, ph.k);
  }

  /** The phase after one more source has been read, not yet combined. */
  function Reading(ph: Phase, ch: nat): Phase {
    ph.(a := ph.a || ch == 1, b := ph.b || ch == 2, c := ph.c || ch == 3)
  }

  // ---------- one bus cycle ----------

  /** Where the machine stands: before the first cycle, at position p of word k, in the two closing cycles, or done. */
  datatype Place = Startup | Main(k: nat, p: nat) | Closing | Done

  /** The place of the last source in the diagram. */
  function LastSource(cfg: Config): nat {
    if cfg.b.on && cfg.c.on then 2 else if cfg.b.on || cfg.c.on then 1 else 0
  }

  /** The cycles of a blit, not counting the start: with D two more than its words take; without D it ends with the last
      source of the last word; without any channel it takes two more than it has words. */
  function EndCycle(cfg: Config): int {
    if cfg.d.on then CycleAt(DiagramOf(cfg).len, cfg.Words(), 0) + 2
    else if cfg.HasSource() then CycleAt(DiagramOf(cfg).len, cfg.Words(), 0) - DiagramOf(cfg).len + LastSource(cfg) + 1
    else cfg.Words() + 2
  }

  /** Usable bus cycles still needed. */
  function Cost(cfg: Config, place: Place, cyc: int): int {
    match place
    case Startup => EndCycle(cfg) - cyc
    case Main(_, _) => EndCycle(cfg) - cyc
    case Closing => 2 - cyc
    case Done => 0
  }

  /** All sources have been read exactly from the place after the last one on. */
  lemma DoneFrom(cfg: Config, k: nat, p: nat)
    requires cfg.HasSource() && p <= DiagramOf(cfg).len
    ensures PhaseAt(cfg, k, p).done <==> p > LastSource(cfg)
    ensures LastSource(cfg) < DiagramOf(cfg).len
  {
    hide PhaseAt, DiagramOf;
    PhaseIsProgress(cfg, k, p);
    LengthOf(cfg);
  }

  lemma NextPhase(cfg: Config, k: nat, p: nat)
    requires p < DiagramOf(cfg).len
    ensures PhaseAt(cfg, k, p + 1) == Advance(cfg, PhaseAt(cfg, k, p), DiagramOf(cfg).RowOf(k)[p])
  {
  }

  lemma StartOfRow(cfg: Config, k: nat)
    ensures PhaseAt(cfg, k, 0) == Begin(k)
  {
  }

  lemma NextRun(cfg: Config, s: Latches, k: nat)
    requires cfg.Valid() && |s.mem| > 0
    ensures Run(cfg, s, k + 1) == OneWord(cfg, Run(cfg, s, k), k)
  {
  }

  lemma CostPositive(cfg: Config, k: nat, p: nat, cyc: int)
    requires k < cfg.Words() && p < DiagramOf(cfg).len && cyc == CycleAt(DiagramOf(cfg).len, k, p)
    requires cfg.HasSource() && (PhaseAt(cfg, k, p).done && k == cfg.Words() - 1 ==> cfg.d.on)
    ensures Cost(cfg, Main(k, p), cyc) >= 1
  {
    hide DiagramOf, PhaseAt, Config.Words;
    DoneFrom(cfg, k, p);
    WholeRows(k, cfg.Words(), DiagramOf(cfg).len);
  }

  lemma WholeRows(k: nat, words: nat, len: nat)
    requires k < words
    ensures k * len + len <= words * len
    ensures k + 1 < words ==> k * len + 2 * len <= words * len
    ensures k + 1 == words ==> k * len + len == words * len
  {
    assert k * len + len == (k + 1) * len;
    assert k * len + 2 * len == (k + 2) * len;
    assert k + 1 < words ==> (k + 2) * len <= words * len;
    assert (k + 1) * len <= words * len;
  }

  lemma CostDone(cfg: Config, cyc: int)
    ensures Cost(cfg, Done, cyc) == 0
  {
  }

  lemma EndPositive(cfg: Config)
    requires cfg.Valid()
    ensures EndCycle(cfg) >= 1
  {
    hide DiagramOf, Config.Words;
    AllCounted(cfg);
    WholeRows(0, cfg.Words(), DiagramOf(cfg).len);
  }

  /** The usable cycles a whole blit takes. */
  lemma CyclesOfBlit(cfg: Config)
    requires cfg.Valid()
    ensures var word := 2 + Flag(cfg.b.on, 1) + Flag(cfg.c.on && cfg.d.on, 1)
                        + Flag(cfg.fill && cfg.d.on && !cfg.c.on, 1);
      Cost(cfg, Startup, -STARTUP_CYCLES) ==
      if cfg.d.on then cfg.h * cfg.v * word + 4
      else if cfg.HasSource() then (cfg.h * cfg.v - 1) * word + 3 + Flag(cfg.b.on, 1) + Flag(cfg.c.on, 1)
      else cfg.h * cfg.v + 4
  {
    hide DiagramOf;
    LengthIs(cfg);
    WordCount(cfg);
    var n, len := cfg.Words(), DiagramOf(cfg).len;
    assert (n - 1) * len == n * len - len;
  }

  /** Up to the closing cycles a cycle costs one. */
  lemma CostStep(cfg: Config, place: Place, next: Place, cyc: int)
    requires (place.Startup? || place.Main?) && (next.Startup? || next.Main?)
    ensures Cost(cfg, next, cyc) == Cost(cfg, place, cyc) && Cost(cfg, next, cyc + 1) == Cost(cfg, place, cyc) - 1
  {
    hide EndCycle;
  }

  /** The last cycle of a blit without a source. */
  lemma BareLast(cfg: Config, place: Place, cyc: int)
    requires place.Main? && !cfg.HasSource()
    ensures Cost(cfg, Done, cyc + 1) == 0
    ensures cfg.d.on && cyc == CycleAt(DiagramOf(cfg).len, cfg.Words(), 1) ==> Cost(cfg, place, cyc) == 1
    ensures !cfg.d.on && cyc == cfg.Words() + 1 ==> Cost(cfg, place, cyc) == 1
  {
    hide DiagramOf, Config.Words;
    CycleSteps(DiagramOf(cfg).len, cfg.Words(), 0);
  }

  /** When a blit without D ends, its last source has just been read. */
  lemma EndsWithSource(cfg: Config, k: nat, p: nat, cyc: int)
    requires cfg.HasSource() && !cfg.d.on && k == cfg.Words() - 1 && p < DiagramOf(cfg).len
    requires !PhaseAt(cfg, k, p).done && PhaseAt(cfg, k, p + 1).done && cyc == CycleAt(DiagramOf(cfg).len, k, p)
    ensures Cost(cfg, Main(k, p), cyc) == 1
  {
    hide DiagramOf, PhaseAt, Config.Words;
    DoneFrom(cfg, k, p);
    DoneFrom(cfg, k, p + 1);
    WholeRows(k, cfg.Words(), DiagramOf(cfg).len);
  }

  /** The counters say that the blit is over, and the pipeline is empty. */
  predicate Over(cfg: Config, c: Counters, p: Pipe) {
    c.v1 >= cfg.v && c.v2 >= cfg.v && !p.use1 && !p.use2
  }

  /** Without D the blit is over when its last word is combined; with D it is not over while words are combined. */
  lemma OverWhen(cfg: Config, w: Latches, ph: Phase, c: Counters, p: Pipe)
    requires cfg.Valid() && |w.mem| > 0 && ph.k < cfg.Words()
    requires PipeOk(cfg, w, OneWord(cfg, w, ph.k), ph, p) && CountersOk(cfg, ph, c)
    ensures Over(cfg, c, p) <==> !cfg.d.on && ph.done && ph.k == cfg.Words() - 1
    ensures c.v1 == cfg.v <==> ph.done && ph.k == cfg.Words() - 1
  {
    hide Row, Col, OneWord;
    LastWord(Combinations(ph), cfg.h, cfg.v);
  }

  lemma AllCounted(cfg: Config)
    requires cfg.Valid()
    ensures cfg.Words() > 0 && Row(cfg.Words(), cfg.h) == cfg.v && Col(cfg.Words(), cfg.h) == 0
  {
    hide Row, Col;
    LastWord(cfg.Words(), cfg.h, cfg.v);
  }

  /** All words combined: the source pointers are where the blit leaves them. */
  lemma PointersEnd(cfg: Config, ph: Phase, pt: Pointers)
    requires cfg.Valid() && PointersOk(cfg, ph, pt)
    requires Combinations(ph) == cfg.Words()
    requires if ph.done then ph.a == cfg.a.on && ph.b == cfg.b.on && ph.c == cfg.c.on else ph == Begin(ph.k)
    ensures pt.a == FinalPtr(cfg, cfg.a) && pt.b == FinalPtr(cfg, cfg.b) && pt.c == FinalPtr(cfg, cfg.c)
    ensures !cfg.d.on ==> pt.d == FinalPtr(cfg, cfg.d)
  {
    hide PtrAt, Row;
    LastWord(cfg.Words(), cfg.h, cfg.v);
    if cfg.a.on { PtrEnd(cfg, cfg.a); }
    if cfg.b.on { PtrEnd(cfg, cfg.b); }
    if cfg.c.on { PtrEnd(cfg, cfg.c); }
  }

  /** Words of a blit without a source that have been stored at position p of row k of the diagram. */
  function BareStores(cfg: Config, k: nat, p: nat): nat {
    if !cfg.d.on || k == 0 then 0 else if p > 1 then k else k - 1
  }

  /** The cycles up to word k are fewer than those of the whole blit, which has at least two a word. */
  lemma EnoughCycles(len: nat, k: nat, words: nat)
    requires 2 <= len && k <= words
    ensures CycleAt(len, words, 0) >= 2 * words
    ensures CycleAt(len, k, 0) <= CycleAt(len, words, 0)
    ensures k < words ==> CycleAt(len, k, len) <= CycleAt(len, words, 0)
    ensures forall p: nat :: CycleAt(len, k, p) == CycleAt(len, k, 0) + p
  {
    if k < words {
      assert (k + 1) * len <= words * len && (k + 1) * len == k * len + len;
    }
    assert words * len >= words * 2;
  }

  lemma BareStep(cfg: Config, s: Latches, k: nat)
    requires cfg.Valid() && |s.mem| > 0
    ensures BareRun(cfg, s, k + 1) == BareWord(cfg, BareRun(cfg, s, k), k)
  {
  }

  lemma BareStart(cfg: Config, s: Latches)
    requires cfg.Valid() && |s.mem| > 0
    ensures BareRun(cfg, s, 0) == s
  {
  }

  lemma OffStays(cfg: Config)
    ensures !cfg.a.on ==> FinalPtr(cfg, cfg.a) == cfg.a.ptr
    ensures !cfg.b.on ==> FinalPtr(cfg, cfg.b) == cfg.b.ptr
    ensures !cfg.c.on ==> FinalPtr(cfg, cfg.c) == cfg.c.ptr
    ensures !cfg.d.on ==> FinalPtr(cfg, cfg.d) == cfg.d.ptr
  {
  }

  class Blitter {
    const chip: array<Word>
    const filltable: array2<Filled>
    var regs: Regs
    var pipe: Pipe
    var pt: Pointers
    var count: Counters
    var cyc: int
    var wait: bool
    var closing: bool
    var busy: bool
    var dmacount2: nat
    var maxcyc: nat

    ghost predicate Ready(cfg: Config, s: Latches)
      reads this`dmacount2, filltable
    {
      && dmacount2 == Sources(cfg)
      && cfg.Valid() && cfg.HasSource() && |s.mem| > 0 && chip.Length == |s.mem| && Filling(filltable)
    }

    /** The machine stands in the given phase of the blit that started from s. */
    ghost predicate Sim(cfg: Config, s: Latches, ph: Phase)
      reads this`regs, this`pipe, this`pt, this`count, chip
      requires cfg.Valid() && |s.mem| > 0
    {
      var w := Run(cfg, s, ph.k);
      var n := OneWord(cfg, w, ph.k);
      && chip[..] == (if ph.d then n.mem else w.mem)
      && RegsOk(w, n, ph, regs) && PipeOk(cfg, w, n, ph, pipe) && PointersOk(cfg, ph, pt) && CountersOk(cfg, ph, count)
    }

    function ChipmemWget(addr: nat): (w: Word)
      reads this, chip
      requires chip.Length > 0
      ensures w == Read(chip[..], addr)
    {
      chip[Cell(chip.Length, addr)]
    }

    /** blitter_doblit. */
    method DoBlit(cfg: Config, ghost w: Latches, ghost k: nat) returns (ddat: Word)
      requires cfg.Valid() && |w.mem| > 0 && Filling(filltable)
      requires count.h1 == Col(k, cfg.h)
      requires var f := Fetch(cfg, w, k); regs == Regs(f.adat, f.cdat, f.bhold, w.zero, w.preva, f.prevb, w.fc)
      modifies this`regs
      ensures var n := OneWord(cfg, w, k);
        && regs == old(regs).(zero := n.zero, preva := n.preva, fc := regs.fc) && ddat == n.last
        && (Col(k, cfg.h) + 1 < cfg.h ==> regs.fc == n.fc)
      ensures regs.fc == Result(cfg, Fetch(cfg, w, k), k).carry && ddat == Result(cfg, Fetch(cfg, w, k), k).word
    {
      hide Hold, Low, Wide, BlitFunc, FillWord, And, Col, Addr, Write, OneWord, Fetch, Filling;
      Combined(cfg, w, k);
      Kept(cfg, w, k);
      var adat := regs.adat;
      if count.h1 == 0 {
        adat := And(adat, cfg.afwm);
      }
      if count.h1 == cfg.h - 1 {
        adat := And(adat, cfg.alwm);
      }
      var ahold := Hold(cfg.desc, regs.preva, adat, cfg.ashift);
      ddat := Low(BlitFunc(ahold, Wide(regs.bhold), Wide(regs.cdat), cfg.mt));
      var fc := regs.fc;
      if cfg.fill {
        var r := FillByTable(filltable, ddat, cfg.ife, fc);
        ddat, fc := r.word, r.carry;
      }
      regs := regs.(preva := adat, fc := fc, zero := if ddat != Word(0) then false else regs.zero);
    }

    /** The three reads of blitter_dodma. */
    method ReadA(cfg: Config, ghost s: Latches, ghost ph: Phase)
      requires Ready(cfg, s) && Sim(cfg, s, ph) && Legal(cfg, ph, 1) && !ph.d
      modifies this`regs, this`pt, this`count
      ensures Sim(cfg, s, Reading(ph, 1))
    {
      hide Hold, Low, OneWord, Run, Row, Col, PtrAt, Wrap, Mult, Read, ChipmemWget;
      SourcesRead(cfg, Run(cfg, s, ph.k), ph.k);
      PtrStep(cfg.a, cfg.desc, ph.k, Row(ph.k, cfg.h));
      regs := regs.(adat := ChipmemWget(pt.a));
      pt := pt.(a := Wrap(pt.a + Mult(cfg.desc) * 2));
      count := count.(dma := count.dma + 1);
    }

    /** Channel B is shifted as it is read. */
    method ReadB(cfg: Config, ghost s: Latches, ghost ph: Phase)
      requires Ready(cfg, s) && Sim(cfg, s, ph) && Legal(cfg, ph, 2) && !ph.d
      modifies this`regs, this`pt, this`count
      ensures Sim(cfg, s, Reading(ph, 2))
    {
      hide Hold, Low, OneWord, Run, Row, Col, PtrAt, Wrap, Mult, Read, ChipmemWget;
      SourcesRead(cfg, Run(cfg, s, ph.k), ph.k);
      PtrStep(cfg.b, cfg.desc, ph.k, Row(ph.k, cfg.h));
      var bdat := ChipmemWget(pt.b);
      regs := regs.(bhold := Low(Hold(cfg.desc, regs.prevb, bdat, cfg.bshift)), prevb := bdat);
      pt := pt.(b := Wrap(pt.b + Mult(cfg.desc) * 2));
      count := count.(dma := count.dma + 1);
    }

    method ReadC(cfg: Config, ghost s: Latches, ghost ph: Phase)
      requires Ready(cfg, s) && Sim(cfg, s, ph) && Legal(cfg, ph, 3) && !ph.d
      modifies this`regs, this`pt, this`count
      ensures Sim(cfg, s, Reading(ph, 3))
    {
      hide Hold, Low, OneWord, Run, Row, Col, PtrAt, Wrap, Mult, Read, ChipmemWget;
      SourcesRead(cfg, Run(cfg, s, ph.k), ph.k);
      PtrStep(cfg.c, cfg.desc, ph.k, Row(ph.k, cfg.h));
      regs := regs.(cdat := ChipmemWget(pt.c));
      pt := pt.(c := Wrap(pt.c + Mult(cfg.desc) * 2));
      count := count.(dma := count.dma + 1);
    }

    /** The counters move on; at the end of a row every source pointer takes its modulo and the fill carry is preset. */
    method NextColumn(cfg: Config, ghost k: nat)
      requires cfg.Valid() && count.h1 == Col(k, cfg.h) && count.v1 == Row(k, cfg.h)
      requires cfg.a.on ==> pt.a == PtrAt(cfg.a, cfg.desc, k + 1, Row(k, cfg.h))
      requires cfg.b.on ==> pt.b == PtrAt(cfg.b, cfg.desc, k + 1, Row(k, cfg.h))
      requires cfg.c.on ==> pt.c == PtrAt(cfg.c, cfg.desc, k + 1, Row(k, cfg.h))
      modifies this`regs, this`pt, this`count
      ensures count == old(count).(h1 := Col(k + 1, cfg.h), v1 := Row(k + 1, cfg.h))
      ensures pt.a == if cfg.a.on then Addr(cfg, cfg.a, k + 1) else old(pt.a)
      ensures pt.b == if cfg.b.on then Addr(cfg, cfg.b, k + 1) else old(pt.b)
      ensures pt.c == if cfg.c.on then Addr(cfg, cfg.c, k + 1) else old(pt.c)
      ensures pt.d == old(pt.d)
      ensures regs == if Col(k, cfg.h) + 1 == cfg.h then old(regs).(fc := cfg.fci) else old(regs)
    {
      hide Row, Col, PtrAt, Wrap, Mult;
      NextWord(k, cfg.h);
      count := count.(h1 := count.h1 + 1);
      if count.h1 == cfg.h {
        PtrStep(cfg.a, cfg.desc, k + 1, Row(k, cfg.h));
        PtrStep(cfg.b, cfg.desc, k + 1, Row(k, cfg.h));
        PtrStep(cfg.c, cfg.desc, k + 1, Row(k, cfg.h));
        var m := Mult(cfg.desc);
        pt := Pointers(
          if cfg.a.on then Wrap(pt.a + m * cfg.a.modulo) else pt.a,
          if cfg.b.on then Wrap(pt.b + m * cfg.b.modulo) else pt.b,
          if cfg.c.on then Wrap(pt.c + m * cfg.c.modulo) else pt.c,
          pt.d);
        count := count.(h1 := 0, v1 := count.v1 + 1);
        regs := regs.(fc := cfg.fci);
      }
    }

    /** The combination at the end of blitter_dodma: the pipeline moves on, and so do the counters. */
    method CombineWord(cfg: Config, ghost s: Latches, ghost ph: Phase)
      requires Ready(cfg, s) && Sim(cfg, s, ph) && ph.k < cfg.Words()
      requires ph.a == cfg.a.on && ph.b == cfg.b.on && ph.c == cfg.c.on && !ph.done && !ph.d
      modifies this`regs, this`pipe, this`pt, this`count
      ensures Sim(cfg, s, ph.(done := true))
    {
      hide Hold, Low, OneWord, Run, Row, Col, PtrAt, Read, Write, Mask, Result, Fetch, Filling;
      ghost var w := Run(cfg, s, ph.k);
      AllRead(cfg, w, ph, regs);
      NextWord(ph.k, cfg.h);
      count := count.(dma := 0);
      var ddat := DoBlit(cfg, w, ph.k);
      pipe := Pipe(ddat, pipe.ddat1, cfg.d.on, pipe.use1);
      NextColumn(cfg, ph.k);
    }

    /** blitter_dodma. */
    method DoDma(cfg: Config, ch: nat, ghost s: Latches, ghost ph: Phase)
      requires Ready(cfg, s) && Sim(cfg, s, ph) && ph.k < cfg.Words()
      requires 1 <= ch <= 3 && Legal(cfg, ph, ch) && Sound(cfg, ph)
      modifies this`regs, this`pipe, this`pt, this`count
      ensures Sim(cfg, s, Advance(cfg, ph, ch))
    {
      hide Filling, RegsOk, PipeOk, PointersOk, Run, OneWord, Row, Col;
      match ch {
        case 1 => ReadA(cfg, s, ph);
        case 2 => ReadB(cfg, s, ph);
        case _ => ReadC(cfg, s, ph);
      }
      if count.dma >= dmacount2 {
        CombineWord(cfg, s, Reading(ph, ch));
      }
    }

    /** The write of blitter_doddma and the counters of the stored words. */
    method WriteD(cfg: Config, d: Word, ghost m: nat)
      requires cfg.Valid() && chip.Length > 0 && pt.d == Addr(cfg, cfg.d, m)
      requires count.h2 == Col(m, cfg.h) && count.v2 == Row(m, cfg.h) && count.v2 <= count.v1
      modifies chip, this`pt, this`count
      ensures chip[..] == Write(old(chip[..]), Addr(cfg, cfg.d, m), d)
      ensures pt == old(pt).(d := Addr(cfg, cfg.d, m + 1))
      ensures count.h2 == Col(m + 1, cfg.h) && count.v2 == Row(m + 1, cfg.h)
      ensures count.h1 == if Channels(cfg) == 1 then Col(m + 1, cfg.h) else old(count.h1)
      ensures count.v1 == (if Row(m + 1, cfg.h) > old(count.v1) then Row(m + 1, cfg.h) else old(count.v1))
      ensures count.dma == old(count.dma)
    {
      hide Row, Col, PtrAt, Wrap, Mult;
      NextWord(m, cfg.h);
      PtrStep(cfg.d, cfg.desc, m, Row(m, cfg.h));
      chip[Cell(chip.Length, pt.d)] := d;
      pt := pt.(d := Wrap(pt.d + Mult(cfg.desc) * 2));
      count := count.(h2 := count.h2 + 1);
      if count.h2 == cfg.h {
        PtrStep(cfg.d, cfg.desc, m + 1, Row(m, cfg.h));
        pt := pt.(d := Wrap(pt.d + Mult(cfg.desc) * cfg.d.modulo));
        count := count.(h2 := 0, v2 := count.v2 + 1);
        if count.v2 > count.v1 {
          count := count.(v1 := count.v2);
        }
      }
      if Channels(cfg) == 1 {
        count := count.(h1 := count.h2);
      }
    }

    /** Memory, data registers, zero flag and pointers are those of the blit; no source read is left uncounted. */
    ghost predicate Finished(cfg: Config, s: Latches)
      reads this`regs, this`pt, this`count, chip
      requires cfg.Valid() && |s.mem| > 0
    {
      var w := Exact(cfg, s);
      && chip[..] == w.mem && regs.adat == w.adat && regs.cdat == w.cdat && regs.bhold == w.bhold && regs.zero == w.zero
      && pt == Pointers(FinalPtr(cfg, cfg.a), FinalPtr(cfg, cfg.b), FinalPtr(cfg, cfg.c), FinalPtr(cfg, cfg.d))
      && count.dma == 0
    }

    /** The older waiting result is stored.  Some result always is waiting. */
    method StoreWaiting(cfg: Config, ghost s: Latches, ghost ph: Phase)
      requires Ready(cfg, s) && Sim(cfg, s, ph) && cfg.d.on && 0 < ph.k <= cfg.Words()
      requires Legal(cfg, ph, 4) || ph == Begin(cfg.Words())
      modifies chip, this`pipe, this`pt, this`count
      ensures var m := ph.k - 1;
        && chip[..] == Write(old(chip[..]), Addr(cfg, cfg.d, m), Run(cfg, s, ph.k).last)
        && pipe.use1 == ph.done && pipe.ddat1 == old(pipe.ddat1) && !pipe.use2
        && pt == old(pt).(d := Addr(cfg, cfg.d, m + 1))
        && count == old(count).(h2 := Col(m + 1, cfg.h), v2 := Row(m + 1, cfg.h))
    {
      hide Row, Col, PtrAt, Write, Run, OneWord, RegsOk;
      ghost var m := Stores(ph);
      RowMonotone(m, Combinations(ph), cfg.h);
      RowMonotone(m + 1, Combinations(ph), cfg.h);
      var d;
      if pipe.use2 {
        d := pipe.ddat2;
        pipe := pipe.(use2 := false);
      } else if pipe.use1 {
        d := pipe.ddat1;
        pipe := pipe.(use1 := false);
      } else {
        assert false;
        return;
      }
      WriteD(cfg, d, m);
    }

    /** A blit without D ends with its last combination. */
    lemma EndWithoutD(cfg: Config, s: Latches, ph: Phase)
      requires Ready(cfg, s) && Sim(cfg, s, ph) && !cfg.d.on && Sound(cfg, ph) && ph.done && ph.k == cfg.Words() - 1
      ensures Finished(cfg, s)
    {
      hide PtrAt, Row, Col, OneWord, PointersOk, FinalPtr, Fetch;
      var w := Run(cfg, s, ph.k);
      Fetched(cfg, w, ph.k);
      Combined(cfg, w, ph.k);
      PointersEnd(cfg, ph, pt);
      assert Run(cfg, s, cfg.Words()) == OneWord(cfg, w, ph.k);
    }

    /** blitter_doddma, in the middle of a row of the diagram and as the last store of the blit. */
    method DoDdma(cfg: Config, ghost s: Latches, ghost ph: Phase)
      requires Ready(cfg, s) && Sim(cfg, s, ph) && cfg.d.on
      requires (ph.k < cfg.Words() && Legal(cfg, ph, 4) && Sound(cfg, ph)) || ph == Begin(cfg.Words())
      modifies chip, this`pipe, this`pt, this`count
      ensures ph.done ==> Sim(cfg, s, Advance(cfg, ph, 4))
      ensures !ph.done ==> Finished(cfg, s) && Over(cfg, count, pipe)
    {
      hide PtrAt, Row, Col, OneWord, Run, Write, Fetch, Result, Config.Words, Filling, FinalPtr;
      ghost var n := cfg.Words();
      AllCounted(cfg);
      if ph.done {
        Combined(cfg, Run(cfg, s, ph.k), ph.k);
      } else {
        PointersEnd(cfg, ph, pt);
        PtrEnd(cfg, cfg.d);
      }
      StoreWaiting(cfg, s, ph);
    }

    ghost predicate In(cfg: Config, s: Latches, place: Place)
      reads this, chip, filltable
    {
      && Ready(cfg, s)
      && match place
         case Startup => busy && -STARTUP_CYCLES <= cyc < 0 && Sim(cfg, s, Begin(0))
         case Main(k, p) =>
           && busy && !closing && k < cfg.Words() && p < DiagramOf(cfg).len && cyc == CycleAt(DiagramOf(cfg).len, k, p)
           && Sim(cfg, s, PhaseAt(cfg, k, p)) && (PhaseAt(cfg, k, p).done && k == cfg.Words() - 1 ==> cfg.d.on)
         case Closing => busy && closing && cfg.d.on && 0 <= cyc <= 1 && Sim(cfg, s, Begin(cfg.Words()))
         case Done => !busy && Finished(cfg, s)
    }

    /** A bus cycle that works for a channel. */
    method ChannelCycle(cfg: Config, c: nat, ghost s: Latches, ghost ph: Phase)
      requires Ready(cfg, s) && Sim(cfg, s, ph) && c != 0
      requires (ph.k < cfg.Words() && Legal(cfg, ph, c) && Sound(cfg, ph))
        || (ph == Begin(cfg.Words()) && cfg.d.on && c == 4)
      modifies this, chip
      ensures Ready(cfg, s) && cyc == old(cyc) + 1 && busy == old(busy) && closing == old(closing) && wait == old(wait)
      ensures ph.k < cfg.Words() ==> Sim(cfg, s, Advance(cfg, ph, c))
      ensures ph.k == cfg.Words() ==> Finished(cfg, s) && Over(cfg, count, pipe)
    {
      hide RegsOk, PipeOk, PointersOk, Run, OneWord, Filling, Row;
      if c == 4 {
        DoDdma(cfg, s, ph);
        cyc := cyc + 1;
      } else {
        LastWord(Combinations(ph), cfg.h, cfg.v);
        if count.v1 < cfg.v {
          DoDma(cfg, c, s, ph);
        }
        cyc := cyc + 1;
      }
    }

    /** The cycle that is due is an idle one. */
    ghost predicate Idling(cfg: Config)
      reads this`closing, this`cyc
    {
      ChannelState(if closing then FINAL_D else DiagramOf(cfg), cyc) == 0
    }

    /** The condition under which decide_blitter turns to the two closing cycles. */
    predicate TurnsToClosing(cfg: Config, diag: Diagram)
      requires diag.Valid()
      reads this`closing, this`count, this`cyc
    {
      !closing && count.v1 == cfg.v && ChannelPos(diag, cyc - 1) == diag.len - 1
    }

    /** A waiting machine does not turn to the closing cycles. */
    lemma StaysOpen(cfg: Config, s: Latches, k: nat, p: nat)
      requires In(cfg, s, Main(k, p)) && cfg.HasSource()
      ensures !TurnsToClosing(cfg, DiagramOf(cfg))
    {
      hide DiagramOf, RegsOk, PointersOk, OneWord, Run, PhaseAt, Finished, Filling, ChannelPos, CycleAt;
      var ph := PhaseAt(cfg, k, p);
      DiagramsFit(cfg, k, p);
      OverWhen(cfg, Run(cfg, s, k), ph, count, pipe);
      if p > 0 {
        StateAt(DiagramOf(cfg), k, p - 1);
        CycleSteps(DiagramOf(cfg).len, k, p - 1);
      } else {
        StartOfRow(cfg, k);
      }
    }

    /** One cycle later: over, further on in the row, at the next word, or at the closing cycles. */
    lemma NextPlace(cfg: Config, s: Latches, k: nat, p: nat)
      requires Ready(cfg, s) && k < cfg.Words() && p < DiagramOf(cfg).len
      requires Sim(cfg, s, PhaseAt(cfg, k, p + 1)) && cyc == CycleAt(DiagramOf(cfg).len, k, p) + 1 && busy && !closing
      ensures Over(cfg, count, pipe) ==>
        Finished(cfg, s) && !cfg.d.on && PhaseAt(cfg, k, p + 1).done && k == cfg.Words() - 1
      ensures !Over(cfg, count, pipe) && p + 1 < DiagramOf(cfg).len ==> In(cfg, s, Main(k, p + 1))
      ensures !Over(cfg, count, pipe) && p + 1 == DiagramOf(cfg).len && k + 1 < cfg.Words() ==>
        In(cfg, s, Main(k + 1, 0))
      ensures !Over(cfg, count, pipe) && p + 1 == DiagramOf(cfg).len && k + 1 == cfg.Words() ==>
        cfg.d.on && Sim(cfg, s, Begin(cfg.Words())) && TurnsToClosing(cfg, DiagramOf(cfg))
    {
      hide DiagramOf, RegsOk, PipeOk, PointersOk, CountersOk, OneWord, Run, PhaseAt, Finished, Filling, ChannelPos,
        CycleAt, Over;
      var ph := PhaseAt(cfg, k, p + 1);
      DiagramsFit(cfg, k, p + 1);
      OverWhen(cfg, Run(cfg, s, k), ph, count, pipe);
      CycleSteps(DiagramOf(cfg).len, k, p);
      StateAt(DiagramOf(cfg), k, p);
      if Over(cfg, count, pipe) {
        EndWithoutD(cfg, s, ph);
      }
      if p + 1 == DiagramOf(cfg).len {
        RowDone(cfg, Run(cfg, s, k), ph, regs, pipe, pt, count);
        NextRun(cfg, s, k);
        StartOfRow(cfg, k + 1);
      }
    }

    /** Further on in the row, at the next word, or about to turn to the closing cycles. */
    lemma Onward(cfg: Config, s: Latches, k: nat, p: nat) returns (next: Place)
      requires Ready(cfg, s) && k < cfg.Words() && p < DiagramOf(cfg).len
      requires Sim(cfg, s, PhaseAt(cfg, k, p + 1)) && cyc == CycleAt(DiagramOf(cfg).len, k, p) + 1 && busy && !closing
      requires !Over(cfg, count, pipe)
      ensures next.Main? || next.Closing?
      ensures next.Main? ==> In(cfg, s, next) && !TurnsToClosing(cfg, DiagramOf(cfg))
      ensures next.Closing? ==>
        && cfg.d.on && Sim(cfg, s, Begin(cfg.Words())) && TurnsToClosing(cfg, DiagramOf(cfg))
        && cyc == CycleAt(DiagramOf(cfg).len, cfg.Words(), 0)
    {
      hide DiagramOf, PhaseAt, Sim, CycleAt, Over, TurnsToClosing, Filling;
      NextPlace(cfg, s, k, p);
      CycleSteps(DiagramOf(cfg).len, k, p);
      next :=
        if p + 1 < DiagramOf(cfg).len then Main(k, p + 1) else if k + 1 < cfg.Words() then Main(k + 1, 0) else Closing;
      if next.Main? {
        StaysOpen(cfg, s, next.k, next.p);
      }
    }

    /** The diagram entry that is due, and that the machine does not turn to the closing cycles by waiting. */
    lemma Due(cfg: Config, s: Latches, place: Place, c: nat)
      requires In(cfg, s, place) && busy && c == ChannelState(if closing then FINAL_D else DiagramOf(cfg), cyc)
      ensures !TurnsToClosing(cfg, DiagramOf(cfg))
      ensures place.Startup? ==> c == 0
      ensures place.Closing? ==> c == if cyc == 0 then 0 else 4
      ensures place.Main? ==>
        var ph := PhaseAt(cfg, place.k, place.p);
        && ph.k == place.k && c == DiagramOf(cfg).RowOf(place.k)[place.p] && Legal(cfg, ph, c) && Sound(cfg, ph)
        && !Over(cfg, count, pipe)
    {
      hide DiagramOf, RegsOk, PointersOk, OneWord, Run, PhaseAt, Filling, Row, Col, CycleAt;
      match place
      case Main(k, p) =>
        StateAt(DiagramOf(cfg), k, p);
        DiagramsFit(cfg, k, p);
        StaysOpen(cfg, s, k, p);
        OverWhen(cfg, Run(cfg, s, k), PhaseAt(cfg, k, p), count, pipe);
      case Startup =>
        FirstWord(cfg.h);
      case _ =>
    }

    /** The first free cycles of a blit. */
    lemma AfterStartup(cfg: Config, s: Latches) returns (next: Place)
      requires Ready(cfg, s) && busy && -STARTUP_CYCLES < cyc <= 0 && Sim(cfg, s, Begin(0)) && (cyc == 0 ==> !closing)
      ensures next.Startup? || next.Main?
      ensures In(cfg, s, next) && !TurnsToClosing(cfg, DiagramOf(cfg))
    {
      hide DiagramOf, Sim, PhaseAt, Finished, Filling, CycleAt, TurnsToClosing, ChannelState;
      next := if cyc == 0 then Main(0, 0) else Startup;
      StartOfRow(cfg, 0);
      CycleSteps(DiagramOf(cfg).len, 0, 0);
      AllCounted(cfg);
      Due(cfg, s, next, ChannelState(if closing then FINAL_D else DiagramOf(cfg), cyc));
    }

    /** An idle cycle of the diagram. */
    method IdleCycle(cfg: Config, ghost s: Latches, ghost place: Place) returns (ghost next: Place)
      requires In(cfg, s, place) && busy && ChannelState(if closing then FINAL_D else DiagramOf(cfg), cyc) == 0
      modifies this`cyc, this`closing
      ensures cyc == old(cyc) + 1
      ensures !TurnsToClosing(cfg, DiagramOf(cfg)) ==>
        In(cfg, s, next) && !next.Done? && (place.Closing? == next.Closing?)
      ensures TurnsToClosing(cfg, DiagramOf(cfg)) ==>
        && place.Main? && cfg.d.on && Sim(cfg, s, Begin(cfg.Words())) && Ready(cfg, s)
        && cyc == CycleAt(DiagramOf(cfg).len, cfg.Words(), 0)
    {
      hide DiagramOf, Sim, Run, PhaseAt, Finished, Filling, CycleAt, Over, TurnsToClosing, Legal, ChannelState,
        Config.Words, Channels;
      Due(cfg, s, place, 0);
      cyc := cyc + 1;
      if cyc == 0 {
        closing := false;
      }
      match place {
        case Main(k, p) =>
          NextPhase(cfg, k, p);
          next := Onward(cfg, s, k, p);
        case Startup =>
          next := AfterStartup(cfg, s);
        case Closing =>
          next := Closing;
          assert !TurnsToClosing(cfg, DiagramOf(cfg)) by { OnlyOnce(cfg); }
      }
    }

    lemma OnlyOnce(cfg: Config)
      requires closing
      ensures !TurnsToClosing(cfg, DiagramOf(cfg))
    {
    }

    /** One turn of decide_blitter's loop.  A cycle that is free, with blitter DMA on, brings the end one cycle nearer,
        unless it is the one cycle that a start by the copper waits. */
    method BusCycle(cfg: Config, diag: Diagram, slot: Slot, ghost s: Latches, ghost place: Place)
      returns (ghost next: Place)
      requires In(cfg, s, place) && busy && diag == DiagramOf(cfg)
      modifies this, chip
      ensures In(cfg, s, next) && !wait
      ensures Cost(cfg, next, cyc) ==
              old(Cost(cfg, place, cyc)) - if Usable(slot, old(Idling(cfg))) && !old(wait) then 1 else 0
    {
      hide DiagramOf, RegsOk, PipeOk, PointersOk, CountersOk, OneWord, Run, PhaseAt, Finished, CycleAt, Over,
           TurnsToClosing, Legal, Sound, ChannelState, Config.Words, Channels, Advance, Sources, Filling, Sim;
      next := place;
      var c := ChannelState(if closing then FINAL_D else diag, cyc);
      Due(cfg, s, place, c);
      if wait {
        wait := false;
      } else if c == 0 && !slot.free {
      } else if c == 0 {
        next := IdleCycle(cfg, s, place);
      } else if !slot.dma || !slot.free {
      } else {
        ghost var ph := if place.Main? then PhaseAt(cfg, place.k, place.p) else Begin(cfg.Words());
        ChannelCycle(cfg, c, s, ph);
        if place.Main? {
          NextPhase(cfg, place.k, place.p);
          NextPlace(cfg, s, place.k, place.p);
        }
        if Over(cfg, count, pipe) {
          if place.Main? {
            EndsWithSource(cfg, place.k, place.p, old(cyc));
          }
          pipe := pipe.(use1 := false, use2 := false);
          busy := false;
          next := Done;
          return;
        }
        next := Onward(cfg, s, place.k, place.p);
      }
      if TurnsToClosing(cfg, diag) {
        cyc := 0;
        closing := true;
        next := Closing;
      }
    }

    /** The state a blit starts from. */
    ghost function Start(cfg: Config): (s: Latches)
      reads this`regs, this`pipe, chip
      requires chip.Length > 0
      ensures Fresh(cfg, s)
    {
      Latches(chip[..], regs.adat, regs.cdat, regs.bhold, Word(0), Word(0), cfg.fci, true, pipe.ddat1)
    }

    /** The start of a blit. */
    lemma Begun(cfg: Config, s: Latches)
      requires cfg.Valid() && |s.mem| > 0 && chip[..] == s.mem
      requires pt == Pointers(cfg.a.ptr, cfg.b.ptr, cfg.c.ptr, cfg.d.ptr)
      requires pt.a < 0x1_0000_0000 && pt.b < 0x1_0000_0000 && pt.c < 0x1_0000_0000 && pt.d < 0x1_0000_0000
      requires regs == Regs(s.adat, s.cdat, s.bhold, s.zero, s.preva, s.prevb, s.fc) && !pipe.use1 && !pipe.use2
      requires count == Counters(0, 0, 0, if cfg.d.on then 0 else cfg.v, 0)
      ensures Sim(cfg, s, Begin(0))
    {
      hide PtrAt, OneWord, Row, Col, Config.Words;
      FirstWord(cfg.h);
      PtrStart(cfg.a, cfg.desc);
      PtrStart(cfg.b, cfg.desc);
      PtrStart(cfg.c, cfg.desc);
      PtrStart(cfg.d, cfg.desc);
    }

    /** do_blitter2 for a cycle exact block blit.  blitter_cyclecounter (count.dma) is not reset: a blit leaves it 0. */
    method DoBlitter(cfg: Config, copper: bool)
      requires cfg.Valid() && chip.Length > 0 && Filling(filltable)
      requires pt == Pointers(cfg.a.ptr, cfg.b.ptr, cfg.c.ptr, cfg.d.ptr)
      requires pt.a < 0x1_0000_0000 && pt.b < 0x1_0000_0000 && pt.c < 0x1_0000_0000 && pt.d < 0x1_0000_0000
      requires count.dma == 0
      modifies this
      ensures Standing(cfg, old(Start(cfg)), Startup) && wait == copper && cyc == -STARTUP_CYCLES
    {
      hide DiagramOf, Sim, Filling, Config.Words;
      ghost var s := Start(cfg);
      regs := regs.(zero := true, preva := Word(0), prevb := Word(0), fc := cfg.fci);
      var nod;
      dmacount2, nod := CountCycles(cfg, DiagramOf(cfg));
      pipe := pipe.(use1 := false, use2 := false);
      count := Counters(0, 0, 0, if nod then cfg.v else 0, count.dma);
      cyc := -STARTUP_CYCLES;
      wait := copper;
      maxcyc := cfg.h * cfg.v + 2;
      busy := true;
      WordCount(cfg);
      if cfg.HasSource() {
        Begun(cfg, s);
      } else {
        BegunBare(cfg, s);
      }
    }

    // ---------- blits without a source ----------

    ghost predicate BareReady(cfg: Config, s: Latches)
      reads this`dmacount2, this`maxcyc, filltable
    {
      && dmacount2 == 0 && maxcyc == cfg.Words() + 2
      && cfg.Valid() && !cfg.HasSource() && |s.mem| > 0 && chip.Length == |s.mem| && Filling(filltable)
    }

    /** n words of a blit without a source have been stored. */
    ghost predicate Plain(cfg: Config, s: Latches, n: nat)
      reads this`regs, this`pipe, this`pt, this`count, chip
      requires cfg.Valid() && |s.mem| > 0
    {
      var w := BareRun(cfg, s, n);
      && chip[..] == w.mem && regs == Regs(w.adat, w.cdat, w.bhold, w.zero, w.preva, w.prevb, w.fc)
      && !pipe.use1 && !pipe.use2
      && pt == Pointers(cfg.a.ptr, cfg.b.ptr, cfg.c.ptr, if cfg.d.on then Addr(cfg, cfg.d, n) else cfg.d.ptr)
      && count == (if cfg.d.on then Counters(Col(n, cfg.h), Col(n, cfg.h), Row(n, cfg.h), Row(n, cfg.h), 0)
                   else Counters(0, 0, 0, cfg.v, 0))
    }

    /** Where the machine stands in a blit without a source; word k is stored in row k + 1 of the diagram. */
    ghost predicate Bare(cfg: Config, s: Latches, place: Place)
      reads this, chip, filltable
    {
      && BareReady(cfg, s)
      && match place
         case Startup => busy && -STARTUP_CYCLES <= cyc < 0 && Plain(cfg, s, 0)
         case Main(k, p) =>
           && busy && !closing && p < DiagramOf(cfg).len && cyc == CycleAt(DiagramOf(cfg).len, k, p)
           && Plain(cfg, s, BareStores(cfg, k, p))
           && (if cfg.d.on then k < cfg.Words() || (k == cfg.Words() && p <= 1) else cyc < maxcyc)
         case Closing => false
         case Done => !busy && Finished(cfg, s)
    }

    /** Where the machine stands in any blit. */
    ghost predicate Standing(cfg: Config, s: Latches, place: Place)
      reads this, chip, filltable
    {
      if cfg.HasSource() then In(cfg, s, place) else Bare(cfg, s, place)
    }

    lemma BegunBare(cfg: Config, s: Latches)
      requires cfg.Valid() && !cfg.HasSource() && |s.mem| > 0 && chip[..] == s.mem
      requires pt == Pointers(cfg.a.ptr, cfg.b.ptr, cfg.c.ptr, cfg.d.ptr) && pt.d < 0x1_0000_0000
      requires regs == Regs(s.adat, s.cdat, s.bhold, s.zero, s.preva, s.prevb, s.fc) && !pipe.use1 && !pipe.use2
      requires count == Counters(0, 0, 0, if cfg.d.on then 0 else cfg.v, 0)
      ensures Plain(cfg, s, 0)
    {
      hide PtrAt, Row, Col, Config.Words;
      FirstWord(cfg.h);
      PtrStart(cfg.d, cfg.desc);
    }

    /** The store of a blit without a source: the first branch of blitter_doddma. */
    method BareDdma(cfg: Config, ghost s: Latches, ghost n: nat)
      requires BareReady(cfg, s) && cfg.d.on && Plain(cfg, s, n)
      modifies chip, this`regs, this`pt, this`count
      ensures Plain(cfg, s, n + 1)
    {
      hide Row, Col, Addr, Write, Result, Filling, Mask, BareRun;
      ghost var w := BareRun(cfg, s, n);
      Fetched(cfg, w, n);
      Kept(cfg, w, n);
      Combined(cfg, w, n);
      assert Fetch(cfg, w, n) == w;
      BareStep(cfg, s, n);
      NextWord(n, cfg.h);
      var d := DoBlit(cfg, w, n);
      WriteD(cfg, d, n);
    }

    /** A machine that works on a blit without a source does not turn to the closing cycles, and is not over. */
    lemma BareStaysOpen(cfg: Config, s: Latches, place: Place)
      requires Bare(cfg, s, place) && busy
      ensures !TurnsToClosing(cfg, DiagramOf(cfg)) && !Over(cfg, count, pipe) && Cost(cfg, place, cyc) >= 1
    {
      hide DiagramOf, Row, Col, BareRun, ChannelPos, Config.Words, Addr, Filling, CycleAt;
      var n := if place.Main? then BareStores(cfg, place.k, place.p) else 0;
      AllCounted(cfg);
      LastWord(n, cfg.h, cfg.v);
      WordCount(cfg);
      EnoughCycles(DiagramOf(cfg).len, if place.Main? && cfg.d.on then place.k else 0, cfg.Words());
    }

    /** The diagram entry that is due. */
    lemma BareDue(cfg: Config, s: Latches, place: Place, c: nat)
      requires Bare(cfg, s, place) && busy && c == ChannelState(if closing then FINAL_D else DiagramOf(cfg), cyc)
      ensures c == if place.Main? && place.p == 1 && cfg.d.on && place.k > 0 then 4 else 0
    {
      hide DiagramOf, Row, Col, BareRun, CycleAt, Plain, Filling;
      if place.Main? {
        StateAt(DiagramOf(cfg), place.k, place.p);
        EntriesOf(cfg, place.k, place.p);
      }
    }

    /** The place one cycle later. */
    ghost function BareNext(cfg: Config, place: Place, cyc: int): Place {
      match place
      case Main(k, p) => if p + 1 < DiagramOf(cfg).len then Main(k, p + 1) else Main(k + 1, 0)
      case _ => if cyc == 0 then Main(0, 0) else Startup
    }

    /** After all words have been stored, or without channels at any time, the blit is what it is meant to be. */
    lemma BareEnd(cfg: Config, s: Latches, n: nat)
      requires BareReady(cfg, s) && Plain(cfg, s, n) && n == if cfg.d.on then cfg.Words() else 0
      ensures Finished(cfg, s)
    {
      hide PtrAt, Row, Col, BareRun, Config.Words, FinalPtr;
      AllCounted(cfg);
      if cfg.d.on {
        PtrEnd(cfg, cfg.d);
      }
      assert FinalPtr(cfg, cfg.a) == cfg.a.ptr && FinalPtr(cfg, cfg.b) == cfg.b.ptr && FinalPtr(cfg, cfg.c) == cfg.c.ptr
        && (!cfg.d.on ==> FinalPtr(cfg, cfg.d) == cfg.d.ptr) by { OffStays(cfg); }
      assert !cfg.d.on ==> BareRun(cfg, s, 0) == s by { BareStart(cfg, s); }
    }

    /** After an idle cycle, or a store that was not the last one, the machine stands one place on. */
    lemma BareIdle(cfg: Config, s: Latches, place: Place)
      requires BareReady(cfg, s) && busy
      requires match place
               case Main(k, p) =>
                 && !closing && p < DiagramOf(cfg).len && cyc == CycleAt(DiagramOf(cfg).len, k, p) + 1
                 && (if cfg.d.on then k < cfg.Words() || (k == cfg.Words() && p == 0) else cyc < maxcyc)
                 && Plain(cfg, s, BareStores(cfg, k, p + 1))
               case Startup => -STARTUP_CYCLES < cyc <= 0 && (cyc == 0 ==> !closing) && Plain(cfg, s, 0)
               case _ => false
      ensures Bare(cfg, s, BareNext(cfg, place, cyc))
    {
      hide DiagramOf, Plain, Filling, CycleAt;
      AllCounted(cfg);
      var len := DiagramOf(cfg).len;
      if place.Main? {
        CycleSteps(len, place.k, place.p);
      } else {
        CycleSteps(len, 0, 0);
      }
    }

    /** After the store of word k - 1 the blit is over if and only if it was the last. */
    lemma BareOver(cfg: Config, s: Latches, k: nat)
      requires BareReady(cfg, s) && cfg.d.on && Plain(cfg, s, k) && k <= cfg.Words()
      ensures Over(cfg, count, pipe) <==> k == cfg.Words()
    {
      hide Row, Col, BareRun, Addr;
      LastWord(k, cfg.h, cfg.v);
    }

    /** One turn of decide_blitter's loop, for a blit without a source.  The closing cycles never come. */
    method BareCycle(cfg: Config, diag: Diagram, slot: Slot, ghost s: Latches, ghost place: Place)
      returns (ghost next: Place)
      requires Bare(cfg, s, place) && busy && diag == DiagramOf(cfg)
      modifies this, chip
      ensures Bare(cfg, s, next) && !wait
      ensures Cost(cfg, next, cyc) ==
              old(Cost(cfg, place, cyc)) - if Usable(slot, old(Idling(cfg))) && !old(wait) then 1 else 0
    {
      hide DiagramOf, Plain, Finished, CycleAt, Over, TurnsToClosing, ChannelState, Config.Words, Filling, Cost;
      next := place;
      if place.Main? {
        BareLast(cfg, place, cyc);
      }
      CostStep(cfg, place, place, cyc);
      CostStep(cfg, place, BareNext(cfg, place, cyc + 1), cyc);
      var c := ChannelState(if closing then FINAL_D else diag, cyc);
      WordCount(cfg);
      BareDue(cfg, s, place, c);
      BareStaysOpen(cfg, s, place);
      if wait {
        wait := false;
      } else if c == 0 && !slot.free {
      } else if c == 0 {
        cyc := cyc + 1;
        if cyc == 0 {
          closing := false;
        }
        next := BareNext(cfg, place, cyc);
        if Channels(cfg) == 0 && cyc >= maxcyc {
          BareEnd(cfg, s, 0);
          busy := false;
          next := Done;
          return;
        }
        BareIdle(cfg, s, place);
      } else if !slot.dma || !slot.free {
      } else {
        BareDdma(cfg, s, place.k - 1);
        cyc := cyc + 1;
        next := BareNext(cfg, place, cyc);
        BareOver(cfg, s, place.k);
        if Over(cfg, count, pipe) {
          BareEnd(cfg, s, place.k);
          pipe := pipe.(use1 := false, use2 := false);
          busy := false;
          next := Done;
          return;
        }
        BareIdle(cfg, s, place);
      }
      BareStaysOpen(cfg, s, next);
      assert !TurnsToClosing(cfg, diag);
    }

    /** decide_blitter over any stretch of bus cycles: done with enough cycles that are free with blitter DMA on, and
        not before there have been so many free ones.  While blitter DMA is on that is exact. */
    method DecideBlitter(cfg: Config, bus: seq<Slot>, ghost s: Latches, ghost place: Place) returns (ghost next: Place)
      requires Standing(cfg, s, place)
      modifies this, chip
      ensures Standing(cfg, s, next)
      ensures FreeCycles(bus, |bus|) >= old(Cost(cfg, place, cyc)) + (if old(wait) then 1 else 0) ==> next.Done?
      ensures old(busy) && FreeSlots(bus, |bus|) < old(Cost(cfg, place, cyc)) + Waited(bus, old(wait)) ==> !next.Done?
    {
      hide DiagramOf, Sim, Finished, Ready, Plain, BareReady, Cost, FreeSlots;
      next := place;
      if !busy {
        return;
      }
      var diag := DiagramOf(cfg);
      ghost var most := Cost(cfg, place, cyc) + if wait then 1 else 0;
      ghost var least := Cost(cfg, place, cyc) + Waited(bus, wait);
      for i := 0 to |bus|
        invariant Standing(cfg, s, next) && busy
        invariant Cost(cfg, next, cyc) + (if wait then 1 else 0) <= most - FreeCycles(bus, i)
        invariant if i == 0 then Cost(cfg, next, cyc) == old(Cost(cfg, place, cyc)) && wait == old(wait)
                  else !wait && Cost(cfg, next, cyc) >= least - FreeSlots(bus, i)
      {
        FreeMore(bus, i);
        if cfg.HasSource() {
          next := BusCycle(cfg, diag, bus[i], s, next);
        } else {
          next := BareCycle(cfg, diag, bus[i], s, next);
        }
        CostDone(cfg, cyc);
        if !busy {
          return;
        }
      }
      CostBound(cfg, s, next);
    }

    lemma CostBound(cfg: Config, s: Latches, place: Place)
      requires Standing(cfg, s, place)
      ensures busy ==> Cost(cfg, place, cyc) > 0
    {
      hide DiagramOf, Sim, Finished, CycleAt, PhaseAt, Config.Words, Plain, BareReady, Filling;
      if !cfg.HasSource() {
        if busy {
          BareStaysOpen(cfg, s, place);
        }
      } else if place.Main? {
        CostPositive(cfg, place.k, place.p, cyc);
      } else if place.Startup? {
        EndPositive(cfg);
      }
    }
  }
}
