/** The fast and the cycle exact blitter do the same. */
module BlitterAgreement {
  import opened BlitterWords
  import opened Blit
  import opened FastBlit
  import opened RegisterBlits
  import opened PlainCopies
  import opened BlitterBits
  import BlitterFill
  import opened BlitterDiagrams
  import Meaning = BlitMeaning
  import Fast = FastBlitter
  import Cycle = CycleBlitter

  /** What an earlier blit left in the result register does not matter. */
  lemma {:induction false} OldResultIgnored(cfg: Config, s: Latches, x: Word, k: nat)
    requires cfg.Valid() && |s.mem| > 0 && k > 0
    ensures Run(cfg, s.(last := x), k) == Run(cfg, s, k)
  {
    hide Fetch, Result, Mask, Read, Write, Col, Addr, Low, Hold;
    if k == 1 {
      FirstWordIgnoresResult(cfg, s, x);
      assert Run(cfg, s, 0) == s && Run(cfg, s.(last := x), 0) == s.(last := x);
    } else {
      OldResultIgnored(cfg, s, x, k - 1);
    }
  }

  lemma FirstWordIgnoresResult(cfg: Config, s: Latches, x: Word)
    requires cfg.Valid() && |s.mem| > 0
    ensures OneWord(cfg, s.(last := x), 0) == OneWord(cfg, s, 0)
  {
    hide Mask, Read, Write, Col, Addr, Low, Hold, BlitFunc;
  }

  lemma SameWhole(cfg: Config, s: Latches, x: Word)
    requires cfg.Valid() && |s.mem| > 0
    ensures Whole(cfg, s.(last := x)) == Whole(cfg, s)
  {
    hide Run, Config.Words, Write, Addr;
    Cycle.AllCounted(cfg);
    OldResultIgnored(cfg, s, x, cfg.Words());
  }

  lemma {:induction false} BareIgnoresResult(cfg: Config, s: Latches, x: Word, k: nat)
    requires cfg.Valid() && |s.mem| > 0
    ensures BareRun(cfg, s.(last := x), k) == BareRun(cfg, s, k).(last := x)
  {
    hide Mask, Write, Addr, Col, Low, Hold, BlitFunc, BlitterFill.FillWord;
    if k > 0 {
      BareIgnoresResult(cfg, s, x, k - 1);
    }
  }

  lemma SameExact(cfg: Config, s: Latches, x: Word)
    requires cfg.Valid() && |s.mem| > 0
    ensures var e, f := Exact(cfg, s.(last := x)), Exact(cfg, s);
      e.mem == f.mem && e.adat == f.adat && e.bhold == f.bhold && e.cdat == f.cdat && e.zero == f.zero
  {
    hide Run, BareRun, Whole, Config.Words;
    SameWhole(cfg, s, x);
    BareIgnoresResult(cfg, s, x, cfg.Words());
  }

  // ---------- agreement ----------

  /** What can be seen of a blit when it is over. */
  ghost predicate SameOutcome(x: Latches, y: Latches) {
    x.mem == y.mem && x.adat == y.adat && x.bhold == y.bhold && x.cdat == y.cdat && x.zero == y.zero
  }

  /** With a source the engines always agree.  Without one the words come from the registers: those that stay in memory
      have to be the same, and so have the zero flags; without any channel the cycle exact one always is set. */
  ghost predicate Alike(cfg: Config, s: Latches)
    requires cfg.Valid() && |s.mem| > 0
  {
    cfg.HasSource() ||
    if cfg.d.on then SameWhereKept(cfg, s) && SameFlags(cfg, s) else FastBlank(cfg, s, cfg.Words())
  }

  /** As long as no enabled pointer is 0 where the fast engine looks, the engines agree if and only if the blit is of
      that kind. */
  lemma AlikeIff(cfg: Config, s: Latches)
    requires cfg.Valid() && Fresh(cfg, s) && Live(cfg)
    ensures SameOutcome(Performed(cfg, s), Exact(cfg, s)) <==> Alike(cfg, s)
  {
    hide Run, BareRun, Config.Words, SameWhereKept, SameFlags, FastBlank, Alive, Performed, Whole, AllZero, Written,
         FastWords, ExactWords;
    LiveIsWhole(cfg, s);
    if cfg.HasSource() {
    } else if cfg.d.on {
      WholeWords(cfg, s);
      ExactlyWords(cfg, s);
      MemoryIff(cfg, s);
      ZeroFlagsIff(cfg, s);
    } else {
      WholeWords(cfg, s);
      NoChannelIff(cfg, s);
    }
  }

  /** What both engines leave in memory, bit by bit: the reference of BlitMeaning. */
  lemma BothMean(cfg: Config, s: Latches, k: nat, b: nat)
    requires cfg.Valid() && Fresh(cfg, s) && Live(cfg) && cfg.HasSource() && Meaning.AllOriginal(cfg, |s.mem|)
    requires cfg.d.on && k < cfg.Words() && Meaning.Lasts(cfg, |s.mem|, k) && b < 16
    ensures |Performed(cfg, s).mem| == |Exact(cfg, s).mem| == |s.mem|
    ensures var c := Meaning.Spot(cfg, cfg.d, |s.mem|, k);
      && WordBit(Performed(cfg, s).mem[c], b) == Meaning.StoredBit(cfg, s, k, b)
      && WordBit(Exact(cfg, s).mem[c], b) == Meaning.StoredBit(cfg, s, k, b)
  {
    hide Performed, Whole, Alive, WordBit, Meaning.AllOriginal, Meaning.Lasts, Meaning.Spot, Meaning.StoredBit;
    LiveIsWhole(cfg, s);
    Meaning.BlitMeans(cfg, s, k, b);
  }

  /** A plain copy with any shift, in either direction: both engines store the masked bits of the source moved by the
      shift, across word and row boundaries, and zeros before the first of them. */
  lemma BothShift(cfg: Config, s: Latches, k: nat, b: nat)
    requires cfg.Valid() && Fresh(cfg, s) && Live(cfg) && Meaning.AllOriginal(cfg, |s.mem|)
    requires cfg.a.on && cfg.d.on && cfg.mt == 0xF0 && !cfg.fill
    requires k < cfg.Words() && Meaning.Lasts(cfg, |s.mem|, k) && b < 16
    ensures |Performed(cfg, s).mem| == |Exact(cfg, s).mem| == |s.mem|
    ensures var c := Meaning.Spot(cfg, cfg.d, |s.mem|, k);
      var from: int := if cfg.desc then b - cfg.ashift else b + cfg.ashift;
      var bit := if 0 <= from < 16 then Meaning.MaskedBit(cfg, s, k, from)
                 else k > 0 && Meaning.MaskedBit(cfg, s, k - 1, if cfg.desc then from + 16 else from - 16);
      WordBit(Performed(cfg, s).mem[c], b) == WordBit(Exact(cfg, s).mem[c], b) == bit
  {
    hide Performed, Whole, Alive, WordBit, Meaning.AllOriginal, Meaning.Lasts, Meaning.Spot, Meaning.MaskedBit;
    LiveIsWhole(cfg, s);
    Meaning.ShiftedCopy(cfg, s, k, b);
  }

  // ---------- where they differ ----------

  lemma HeldRaw(cfg: Config, s: Latches, k: nat)
    requires TakesA(cfg)
    ensures Raw(cfg, s, k) == s.adat
  {
    hide Unfilled;
    TakenWord(cfg, s.(preva := PreviousA(cfg, s, k)), k);
  }

  lemma TwoWords(cfg: Config)
    requires cfg.h == 1 && cfg.v == 2
    ensures cfg.Words() == 2 && FirstOfRow(1, 1) == 1
  {
    SplitWord(1, 1, 0, 1);
  }

  /** A single set bit in each of two rows of one word: it fills the first row and the carry runs on into the second. */
  lemma OneBitRunsOn(cfg: Config, s: Latches)
    requires TakesA(cfg) && Fresh(cfg, s) && Channels(cfg) == 1 && cfg.fill && cfg.h == 1 && cfg.v == 2
    requires s.adat == Word(1)
    ensures Whole(cfg, s).mem != Exact(cfg, s).mem
  {
    hide Whole, Exact, Raw, Ones, Place, FirstOfRow, Config.Words;
    MemoryIff(cfg, s);
    HeldRaw(cfg, s, 0);
    HeldRaw(cfg, s, 1);
    OnesOfSpecial();
    TwoWords(cfg);
    NothingBefore(cfg, s);
    assert Remains(cfg, |s.mem|, 1, 2);
    assert !SameAt(cfg, s, 1);
  }

  /** Without any channel and with all minterms the zero flags differ. */
  lemma AllMinterms(cfg: Config, s: Latches)
    requires cfg.Valid() && Fresh(cfg, s) && Channels(cfg) == 0 && cfg.mt == 0xFF
    ensures Whole(cfg, s).zero != Exact(cfg, s).zero
  {
    hide Whole, Exact, Mask, Hold, Low, BlitFunc, Wide, Col, Config.Words;
    NoChannelIff(cfg, s);
    var w := s.(preva := PreviousA(cfg, s, 0));
    AllOnes(Hold(cfg.desc, w.preva, Mask(cfg, Col(0, cfg.h), w.adat), cfg.ashift), Wide(w.bhold), Wide(w.cdat));
    WordCount(cfg);
    assert Raw(cfg, s, 0) == Word(0xFFFF);
  }

  lemma AllOnes(a: Long, b: Long, c: Long)
    ensures Low(BlitFunc(a, b, c, 0xFF)) == Word(0xFFFF)
  {
  }

  // ---------- the engines themselves ----------

  /** Started on the same memory and registers, with any pattern of bus cycles that leaves the cycle exact engine enough
      free ones, both engines leave the same memory, zero flag, data registers and pointers. */
  method BothEngines(f: Fast.Blitter, c: Cycle.Blitter, cfg: Config, copper: bool, bus: seq<Slot>)
    requires f.Idle(cfg) && f.Loaded(cfg) && Live(cfg) && Alike(cfg, f.Start(cfg))
    requires c.chip.Length > 0 && BlitterFill.Filling(c.filltable) && c.count.dma == 0
    requires c.chip != f.chip && c.chip != f.masktable
    requires c.chip[..] == f.chip[..] && c.pt == f.pt
    requires c.regs.adat == f.info.adat && c.regs.cdat == f.info.cdat && c.regs.bhold == f.info.bhold
    requires FreeCycles(bus, |bus|) >=
             Cycle.Cost(cfg, Cycle.Startup, -STARTUP_CYCLES) + if copper then 1 else 0
    modifies f, f.chip, f.masktable, c, c.chip
    ensures !c.busy && c.chip[..] == f.chip[..] && c.pt == f.pt && c.regs.zero == f.info.zero
    ensures c.regs.adat == f.info.adat && c.regs.cdat == f.info.cdat && c.regs.bhold == f.info.bhold
    ensures c.count.dma == 0
  {
    hide DiagramOf, Exact, Performed, FinalPtr, Alike, Live, BlitterFill.Filling, Config.Words, Channels, Cycle.Cost,
         FreeCycles, Fresh, Cycle.Blitter.Sim, Cycle.Blitter.Plain;
    ghost var s, t := f.Start(cfg), c.Start(cfg);
    assert t == s.(last := c.pipe.ddat1);
    AlikeIff(cfg, s);
    SameExact(cfg, s, c.pipe.ddat1);
    f.DoFast(cfg);
    c.DoBlitter(cfg, copper);
    ghost var place := c.DecideBlitter(cfg, bus, t, Cycle.Startup);
  }
}
