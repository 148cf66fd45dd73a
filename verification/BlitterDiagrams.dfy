/** The bus cycle diagrams of the blitter, and what has happened to a word at each place in them. */
module BlitterDiagrams {
  import opened Blit

  /** Cycles of one word, for the first word and for all later ones: 0 is idle, 1 to 3 read A to C, 4 writes D. */
  datatype Diagram = Diagram(len: nat, first: seq<nat>, main: seq<nat>)
  {
    predicate Valid() {
      len > 0 && |first| == len && |main| == len
    }

    function RowOf(k: nat): seq<nat> {
      if k == 0 then first else main
    }
  }

  function BlockDiagram(ch: nat): Diagram {
    match ch
    case 0 => Diagram(2, [0, 0], [0, 0])
    case 1 => Diagram(2, [0, 0], [0, 4])
    case 2 => Diagram(2, [0, 3], [0, 3])
    case 3 => Diagram(3, [0, 3, 0], [0, 3, 4])
    case 4 => Diagram(3, [0, 2, 0], [0, 2, 0])
    case 5 => Diagram(3, [0, 2, 0], [0, 2, 4])
    case 6 => Diagram(3, [0, 2, 3], [0, 2, 3])
    case 7 => Diagram(4, [0, 2, 3, 0], [0, 2, 3, 4])
    case 8 => Diagram(2, [1, 0], [1, 0])
    case 9 => Diagram(2, [1, 0], [1, 4])
    case 10 => Diagram(2, [1, 3], [1, 3])
    case 11 => Diagram(3, [1, 3, 0], [1, 3, 4])
    case 12 => Diagram(3, [1, 2, 0], [1, 2, 0])
    case 13 => Diagram(3, [1, 2, 0], [1, 2, 4])
    case 14 => Diagram(3, [1, 2, 3], [1, 2, 3])
    case _ => Diagram(4, [1, 2, 3, 0], [1, 2, 3, 4])
  }

  /** Four channel combinations have an extra idle cycle in fill mode. */
  function FillDiagram(ch: nat): Diagram {
    match ch
    case 1 => Diagram(3, [0, 0, 0], [0, 4, 0])
    case 5 => Diagram(4, [0, 2, 0, 0], [0, 2, 4, 0])
    case 9 => Diagram(3, [1, 0, 0], [1, 4, 0])
    case 13 => Diagram(4, [1, 2, 0, 0], [1, 2, 4, 0])
    case _ => Diagram(0, [], [])
  }

  const FINAL_D := Diagram(2, [0, 4], [0, 4])

  /** Line drawing: an idle cycle, the read of C, an internal cycle (5), and the write. */
  const LINE := Diagram(4, [0, 3, 5, 4], [0, 3, 5, 4])

  const FINAL_LINE := Diagram(2, [0, 0], [0, 0])

  function Flag(on: bool, bit: nat): nat {
    if on then bit else 0
  }

  /** blit_ch. */
  function Channels(cfg: Config): nat {
    Flag(cfg.a.on, 8) + Flag(cfg.b.on, 4) + Flag(cfg.c.on, 2) + Flag(cfg.d.on, 1)
  }

  /** blit_diag. */
  function DiagramOf(cfg: Config): (d: Diagram)
    ensures d.Valid() && 2 <= d.len <= 4
  {
    var ch := Channels(cfg);
    if cfg.fill && FillDiagram(ch).len != 0 then FillDiagram(ch) else BlockDiagram(ch)
  }

  /** channel_state, for the diagram in use. */
  function ChannelState(d: Diagram, cycles: int): nat
    requires d.Valid()
  {
    if cycles < 0 then 0 else if cycles < d.len then d.first[cycles] else d.main[(cycles - d.len) % d.len]
  }

  function ChannelPos(d: Diagram, cycles: int): nat
    requires d.Valid()
  {
    if cycles < 0 then 0 else if cycles < d.len then cycles else (cycles - d.len) % d.len
  }

  /** Cycle number of position p of word k. */
  function CycleAt(len: nat, k: nat, p: nat): nat {
    k * len + p
  }

  lemma CycleSteps(len: nat, k: nat, p: nat)
    ensures CycleAt(len, 0, p) == p
    ensures CycleAt(len, k, p + 1) == CycleAt(len, k, p) + 1
    ensures CycleAt(len, k, len) == CycleAt(len, k + 1, 0)
  {
    assert k * len + len == (k + 1) * len;
  }

  lemma StateAt(d: Diagram, k: nat, p: nat)
    requires d.Valid() && p < d.len
    ensures ChannelState(d, CycleAt(d.len, k, p)) == d.RowOf(k)[p]
    ensures ChannelPos(d, CycleAt(d.len, k, p)) == p
  {
    var c := CycleAt(d.len, k, p);
    if k > 0 {
      assert c - d.len == (k - 1) * d.len + p;
      assert (k - 1) * d.len >= 0;
      SplitWord(c - d.len, d.len, p, k - 1);
    } else {
      assert c == p;
    }
  }

  // ---------- the bus ----------

  /** One bus cycle: whether it is free of bitplane and other DMA, and whether blitter DMA is on. */
  datatype Slot = Slot(free: bool, dma: bool)

  const STARTUP_CYCLES := 2

  /** The cycles among the first n that the blitter can use. */
  function FreeCycles(bus: seq<Slot>, n: nat): nat
    requires n <= |bus|
  {
    if n == 0 then 0 else FreeCycles(bus, n - 1) + if bus[n - 1].free && bus[n - 1].dma then 1 else 0
  }

  /** The cycles among the first n that no other DMA takes. */
  function FreeSlots(bus: seq<Slot>, n: nat): nat
    requires n <= |bus|
  {
    if n == 0 then 0 else FreeSlots(bus, n - 1) + if bus[n - 1].free then 1 else 0
  }

  lemma FreeMore(bus: seq<Slot>, n: nat)
    requires n < |bus|
    ensures FreeSlots(bus, 0) == 0 && FreeSlots(bus, n + 1) == FreeSlots(bus, n) + if bus[n].free then 1 else 0
    ensures FreeSlots(bus, n + 1) <= FreeSlots(bus, |bus|)
    decreases |bus| - n
  {
    if n + 1 < |bus| {
      FreeMore(bus, n + 1);
    }
  }

  /** The blitter uses a cycle that no other DMA takes; for a channel blitter DMA has to be on. */
  predicate Usable(slot: Slot, idle: bool) {
    slot.free && (idle || slot.dma)
  }

  /** The one cycle that a start by the copper waits, if it is free. */
  function Waited(bus: seq<Slot>, wait: bool): nat {
    if wait && |bus| > 0 && bus[0].free then 1 else 0
  }

  // ---------- where a word stands ----------

  /** Word k is being worked on: which sources have been read, whether the result has been combined, and whether the
      result of word k - 1 has been stored. */
  datatype Phase = Phase(k: nat, a: bool, b: bool, c: bool, done: bool, d: bool)

  function Begin(k: nat): Phase {
    Phase(k, false, false, false, false, false)
  }

  function Sources(cfg: Config): nat {
    Flag(cfg.a.on, 1) + Flag(cfg.b.on, 1) + Flag(cfg.c.on, 1)
  }

  /** Number of sources read. */
  function Count(ph: Phase): nat {
    Flag(ph.a, 1) + Flag(ph.b, 1) + Flag(ph.c, 1)
  }

  /** One more cycle of the diagram; the last source read combines the word. */
  function Advance(cfg: Config, ph: Phase, code: nat): Phase {
    var fetched := ph.(a := ph.a || code == 1, b := ph.b || code == 2, c := ph.c || code == 3, d := ph.d || code == 4);
    fetched.(done := Count(fetched) == Sources(cfg))
  }

  /** The cycle makes sense: a source is enabled and not yet read, a store has a result to store. */
  predicate Legal(cfg: Config, ph: Phase, code: nat) {
    match code
    case 0 => true
    case 1 => cfg.a.on && !ph.a && !ph.done
    case 2 => cfg.b.on && !ph.b && !ph.done
    case 3 => cfg.c.on && !ph.c && !ph.done
    case 4 => cfg.d.on && ph.done && ph.k > 0 && !ph.d
    case _ => false
  }

  /** Only enabled sources have been read, and the word is done when all have. */
  predicate Sound(cfg: Config, ph: Phase) {
    && (ph.a ==> cfg.a.on) && (ph.b ==> cfg.b.on) && (ph.c ==> cfg.c.on)
    && (ph.done <==> Count(ph) == Sources(cfg))
    && (ph.d ==> cfg.d.on && ph.k > 0 && ph.done)
  }

  /** The word at position p of its row. */
  function PhaseAt(cfg: Config, k: nat, p: nat): Phase
    requires p <= DiagramOf(cfg).len
  {
    if p == 0 then Begin(k) else Advance(cfg, PhaseAt(cfg, k, p - 1), DiagramOf(cfg).RowOf(k)[p - 1])
  }

  /** Entry p of a row, in terms of the enabled channels: the sources in order, and then D from the second word on. */
  function Entry(cfg: Config, k: nat, p: nat): nat {
    var lead := if cfg.a.on then 1 else 0;
    if p == 0 then lead
    else if p == 1 then (if cfg.b.on then 2 else if cfg.c.on then 3 else if cfg.d.on && k > 0 then 4 else 0)
    else if p == 2 then
      (if cfg.b.on && cfg.c.on then 3 else if cfg.d.on && k > 0 && (cfg.b.on || cfg.c.on) then 4 else 0)
    else if cfg.d.on && k > 0 && cfg.b.on && cfg.c.on then 4 else 0
  }

  lemma EntriesOf(cfg: Config, k: nat, p: nat)
    requires p < DiagramOf(cfg).len
    ensures DiagramOf(cfg).RowOf(k)[p] == Entry(cfg, k, p)
  {
  }

  /** How many cycles a word takes: two, one more for B, one more for C and D together, and in fill mode one more for D
      without C. */
  lemma LengthIs(cfg: Config)
    ensures DiagramOf(cfg).len ==
            2 + Flag(cfg.b.on, 1) + Flag(cfg.c.on && cfg.d.on, 1) + Flag(cfg.fill && cfg.d.on && !cfg.c.on, 1)
  {
  }

  lemma LengthOf(cfg: Config)
    ensures 2 <= DiagramOf(cfg).len
    ensures cfg.b.on && cfg.c.on ==> DiagramOf(cfg).len >= if cfg.d.on then 4 else 3
    ensures cfg.d.on && (cfg.b.on || cfg.c.on) ==> DiagramOf(cfg).len >= 3
  {
  }

  /** What has been done of word k before position p. */
  function Progress(cfg: Config, k: nat, p: nat): Phase {
    var a, b, c := cfg.a.on && p >= 1, cfg.b.on && p >= 2, cfg.c.on && p >= if cfg.b.on then 3 else 2;
    Phase(k, a, b, c, a == cfg.a.on && b == cfg.b.on && c == cfg.c.on,
      cfg.d.on && k > 0 && p > 1 + Flag(cfg.b.on, 1) + Flag(cfg.c.on, 1))
  }

  lemma {:induction false} PhaseIsProgress(cfg: Config, k: nat, p: nat)
    requires cfg.HasSource() && p <= DiagramOf(cfg).len
    ensures PhaseAt(cfg, k, p) == Progress(cfg, k, p)
  {
    hide DiagramOf;
    if p > 0 {
      PhaseIsProgress(cfg, k, p - 1);
      EntriesOf(cfg, k, p - 1);
    }
  }

  /** Every cycle of every diagram with a source is legal, and at the end of a row the word is done and its predecessor
      stored. */
  lemma DiagramsFit(cfg: Config, k: nat, p: nat)
    requires cfg.HasSource() && p <= DiagramOf(cfg).len
    ensures Sound(cfg, PhaseAt(cfg, k, p)) && PhaseAt(cfg, k, p).k == k
    ensures p < DiagramOf(cfg).len ==> Legal(cfg, PhaseAt(cfg, k, p), DiagramOf(cfg).RowOf(k)[p])
    ensures p == DiagramOf(cfg).len ==> PhaseAt(cfg, k, p).done && PhaseAt(cfg, k, p).d == (cfg.d.on && k > 0)
  {
    hide DiagramOf, PhaseAt;
    PhaseIsProgress(cfg, k, p);
    LengthOf(cfg);
    if p < DiagramOf(cfg).len {
      EntriesOf(cfg, k, p);
    }
  }

  /** The first n cycles of a row that read a source. */
  function DmaCount(row: seq<nat>, n: nat): nat
    requires n <= |row|
  {
    if n == 0 then 0 else DmaCount(row, n - 1) + Flag(0 < row[n - 1] < 4, 1)
  }

  /** The main row has one read for every enabled source, and a write exactly when D is enabled. */
  lemma RowCounts(cfg: Config)
    ensures DmaCount(DiagramOf(cfg).main, DiagramOf(cfg).len) == Sources(cfg)
    ensures 4 in DiagramOf(cfg).main <==> cfg.d.on
  {
    hide DiagramOf;
    LengthOf(cfg);
    var d := DiagramOf(cfg);
    EntriesOf(cfg, 1, 0);
    EntriesOf(cfg, 1, 1);
    assert DmaCount(d.main, 1) == Flag(0 < d.main[0] < 4, 1);
    assert DmaCount(d.main, 2) == Flag(0 < d.main[0] < 4, 1) + Flag(0 < d.main[1] < 4, 1);
    if d.len >= 3 {
      EntriesOf(cfg, 1, 2);
      assert DmaCount(d.main, 3) == DmaCount(d.main, 2) + Flag(0 < d.main[2] < 4, 1);
    }
    if d.len >= 4 {
      EntriesOf(cfg, 1, 3);
    }
  }

  /** blit_bltset's count of the cycles of a main row: source reads, and whether there is no write. */
  method CountCycles(cfg: Config, d: Diagram) returns (dmacount2: nat, nod: bool)
    requires d == DiagramOf(cfg)
    ensures dmacount2 == Sources(cfg) && nod == !cfg.d.on
  {
    hide DiagramOf;
    RowCounts(cfg);
    dmacount2, nod := 0, true;
    for i := 0 to d.len
      invariant dmacount2 == DmaCount(d.main, i)
      invariant nod <==> 4 !in d.main[..i]
    {
      var v := d.main[i];
      if 0 < v < 4 {
        dmacount2 := dmacount2 + 1;
      }
      if v == 4 {
        nod := false;
      }
    }
  }
}
