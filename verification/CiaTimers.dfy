/** The interval timers of the two 8520 CIAs.  The emulator updates them lazily, driven by one computed event time;
    the reference is a machine that steps every timer once per E-clock. */
module CiaTimers {
  import opened Register

  /** Cycle units in one E-clock: (4 + 6) * 512 / 2. */
  const DIV10: nat := 2560
  /** pissoff_value * CYCLE_UNIT: the cycles that are counted down before time is looked at again. */
  const HOLDOFF: nat := 12_800_000
  const CIASTARTCYCLESHI: nat := 3
  const CIASTARTCYCLESCRA: nat := 2

  /** The timer side of one CIA: control registers, counters, latches, start delays, serial counter, raised flags. */
  datatype Timers = Timers(cra: Reg, crb: Reg, ta: int, tb: int, la: nat, lb: nat,
                           starta: nat, startb: nat, sdrCnt: nat, icr: Reg)
  {
    predicate RunsA() {
      ClockedA(cra)
    }

    predicate RunsB() {
      ClockedB(crb)
    }

    predicate Cascaded() {
      CountsA(crb)
    }

    predicate Ok() {
      0 <= ta && 0 <= tb
    }
  }

  /** Timer A counts E-clocks. */
  predicate ClockedA(cra: Reg) {
    cra.v & 0x21 == 0x01
  }

  /** Timer B counts E-clocks. */
  predicate ClockedB(crb: Reg) {
    crb.v & 0x61 == 0x01
  }

  /** Timer B counts underflows of timer A. */
  predicate CountsA(crb: Reg) {
    crb.v & 0x61 == 0x41 || crb.v & 0x61 == 0x61
  }

  /** The serial port is clocked by timer A. */
  predicate SerialOut(cra: Reg) {
    cra.v & 0x48 == 0x40
  }

  /** A one-shot timer stops at its end. */
  function Stopped(cr: Reg): Reg {
    if cr.Has(8) then cr.Clear(1) else cr
  }

  lemma CascadeIsNotClocked(crb: Reg)
    requires CountsA(crb)
    ensures !ClockedB(crb) && !ClockedB(Stopped(crb))
  {
  }

  /** The flags raised by a timer A underflow, a timer B underflow and the last serial bit. */
  function Raise(icr: Reg, a: bool, b: bool, sp: bool): Reg {
    var i := if a then icr.Set(1) else icr;
    var j := if b then i.Set(2) else i;
    if sp then j.Set(8) else j
  }

  lemma RaiseNothing(icr: Reg)
    ensures Raise(icr, false, false, false) == icr
  {
  }

  lemma RaiseInAnyOrder(icr: Reg, b: bool, sp: bool)
    ensures Raise(Raise(Raise(icr, false, false, sp), false, b, false), true, false, false) == Raise(icr, true, b, sp)
    ensures Raise(Raise(icr, true, false, sp), false, b, false) == Raise(icr, true, b, sp)
    ensures Raise(Raise(icr, false, false, sp), true, false, false) == Raise(icr, true, false, sp)
  {
  }

  // ---------- the stepped machine ----------

  /** Timer A reaching its end: reload, stop if one-shot. */
  function UnderflowA(s: Timers): Timers {
    s.(ta := s.la, icr := Raise(s.icr, true, false, false), cra := Stopped(s.cra))
  }

  function UnderflowB(s: Timers): Timers {
    s.(tb := s.lb, icr := Raise(s.icr, false, true, false), crb := Stopped(s.crb))
  }

  /** One count of timer B. */
  function CountB(s: Timers): Timers {
    if s.tb == 0 then UnderflowB(s) else s.(tb := s.tb - 1)
  }

  /** One underflow of timer A clocks the serial counter. */
  function ClockSerial(s: Timers): Timers {
    if SerialOut(s.cra) && s.sdrCnt > 0 then
      s.(sdrCnt := s.sdrCnt - 1, icr := Raise(s.icr, false, false, s.sdrCnt == 1))
    else s
  }

  /** Timer A's part of one E-clock. */
  function TickA(s: Timers): Timers {
    if !s.RunsA() then s
    else if s.starta > 0 then s.(starta := s.starta - 1)
    else if s.ta > 0 then s.(ta := s.ta - 1)
    else
      var clocked := ClockSerial(s);
      UnderflowA(if s.Cascaded() then CountB(clocked) else clocked)
  }

  /** Timer B's part of one E-clock. */
  function TickB(s: Timers): Timers {
    if !s.RunsB() then s
    else if s.startb > 0 then s.(startb := s.startb - 1)
    else CountB(s)
  }

  function Tick(s: Timers): Timers {
    TickB(TickA(s))
  }

  function Ticks(s: Timers, n: nat): Timers {
    if n == 0 then s else Tick(Ticks(s, n - 1))
  }

  // ---------- how long nothing happens ----------

  /** Neither E-clock timer underflows within n clocks. */
  predicate Quiet(s: Timers, n: nat) {
    && (s.RunsA() ==> n <= s.ta + s.starta)
    && (s.RunsB() ==> n <= s.tb + s.startb)
  }

  /** No E-clock timer passes an underflow within n clocks: the condition the source asserts. */
  predicate Within(s: Timers, n: nat) {
    && (s.RunsA() ==> n <= s.ta + s.starta + 1)
    && (s.RunsB() ==> n <= s.tb + s.startb + 1)
  }

  function Monus(x: int, y: int): int {
    if x >= y then x - y else 0
  }

  /** n quiet clocks: the start delay runs down first, then the counter. */
  function Aged(s: Timers, n: nat): Timers {
    var a := if s.RunsA() then s.(starta := Monus(s.starta, n), ta := s.ta - Monus(n, s.starta)) else s;
    if s.RunsB() then a.(startb := Monus(s.startb, n), tb := s.tb - Monus(n, s.startb)) else a
  }

  lemma {:induction false} QuietTicks(s: Timers, n: nat)
    requires s.Ok() && Quiet(s, n)
    ensures Ticks(s, n) == Aged(s, n)
  {
    hide ClockedA, ClockedB, CountsA, SerialOut, Stopped, Raise;
    if n > 0 {
      QuietTicks(s, n - 1);
    }
  }

  /** Up to and including the first underflow, n clocks are n - 1 quiet ones and one tick. */
  lemma LastTick(s: Timers, n: nat)
    requires s.Ok() && Within(s, n) && n > 0
    ensures Ticks(s, n) == Tick(Aged(s, n - 1))
  {
    hide Tick;
    QuietTicks(s, n - 1);
  }

  lemma {:induction false} TicksAdd(s: Timers, m: nat, n: nat)
    ensures Ticks(Ticks(s, m), n) == Ticks(s, m + n)
  {
    hide Tick;
    if n > 0 {
      TicksAdd(s, m, n - 1);
    }
  }

  /** Up to and including the first underflow, the stepped machine in closed form. */
  function Outcome(s: Timers, n: nat): Timers {
    var overA := s.RunsA() && n == s.ta + s.starta + 1;
    var cascade := overA && s.Cascaded();
    var overB := (s.RunsB() && n == s.tb + s.startb + 1) || (cascade && s.tb == 0);
    var serial := overA && SerialOut(s.cra) && s.sdrCnt > 0;
    Timers(
      if overA then Stopped(s.cra) else s.cra,
      if overB then Stopped(s.crb) else s.crb,
      if overA then s.la else if s.RunsA() then s.ta - Monus(n, s.starta) else s.ta,
      if overB then s.lb else if s.RunsB() then s.tb - Monus(n, s.startb) else if cascade then s.tb - 1 else s.tb,
      s.la, s.lb,
      if s.RunsA() then Monus(s.starta, n) else s.starta,
      if s.RunsB() then Monus(s.startb, n) else s.startb,
      if serial then s.sdrCnt - 1 else s.sdrCnt,
      Raise(s.icr, overA, overB, serial && s.sdrCnt == 1))
  }

  /** Timer A's part of the last tick. */
  lemma LastTickA(s: Timers, n: nat)
    requires s.Ok() && Within(s, n) && n > 0
    ensures var t := TickA(Aged(s, n - 1));
      var overA := s.RunsA() && n == s.ta + s.starta + 1;
      var cascade := overA && s.Cascaded();
      var serial := overA && SerialOut(s.cra) && s.sdrCnt > 0;
      && t.cra == (if overA then Stopped(s.cra) else s.cra)
      && t.crb == (if cascade && s.tb == 0 then Stopped(s.crb) else s.crb)
      && t.ta == (if overA then s.la else if s.RunsA() then s.ta - Monus(n, s.starta) else s.ta)
      && t.tb == (if cascade && s.tb == 0 then s.lb else if cascade then s.tb - 1 else Aged(s, n - 1).tb)
      && t.la == s.la && t.lb == s.lb
      && t.starta == (if s.RunsA() then Monus(s.starta, n) else s.starta) && t.startb == Aged(s, n - 1).startb
      && t.sdrCnt == (if serial then s.sdrCnt - 1 else s.sdrCnt)
      && t.icr == Raise(s.icr, overA, cascade && s.tb == 0, serial && s.sdrCnt == 1)
  {
    hide ClockedA, ClockedB, CountsA, SerialOut, Stopped, Raise;
    RaiseNothing(s.icr);
    if s.RunsA() && n == s.ta + s.starta + 1 {
      var g := Aged(s, n - 1);
      assert g.ta == 0 && g.starta == 0;
      RaiseInAnyOrder(s.icr, true, SerialOut(s.cra) && s.sdrCnt == 1);
      if s.Cascaded() {
        CascadeIsNotClocked(s.crb);
        assert g.tb == s.tb;
      }
    }
  }

  lemma TicksInClosedForm(s: Timers, n: nat)
    requires s.Ok() && Within(s, n)
    ensures Ticks(s, n) == Outcome(s, n)
  {
    hide ClockedA, ClockedB, CountsA, SerialOut, Stopped, Raise, TickA;
    RaiseNothing(s.icr);
    if n > 0 {
      LastTick(s, n);
      LastTickA(s, n);
      RaiseInAnyOrder(s.icr, true, s.RunsA() && n == s.ta + s.starta + 1 && SerialOut(s.cra) && s.sdrCnt == 1);
      if s.Cascaded() {
        CascadeIsNotClocked(s.crb);
      }
    }
  }

  // ---------- two CIAs and a cycle counter ----------

  /** Both stepped machines and how far into the current E-clock they are. */
  datatype Machine = Machine(a: Timers, b: Timers, phase: nat)

  /** The stepped machines after c more cycles. */
  function Advance(m: Machine, c: nat): Machine {
    var clocks := (m.phase + c) / DIV10;
    Machine(Ticks(m.a, clocks), Ticks(m.b, clocks), (m.phase + c) % DIV10)
  }

  lemma QuotientIs(n: nat, k: nat, r: nat)
    requires n == DIV10 * k + r && r < DIV10
    ensures n / DIV10 == k && n % DIV10 == r
  {
  }

  /** Splitting a stretch of cycles: whole clocks and remainder of the parts give those of the sum. */
  lemma SplitCycles(x: nat, d: nat)
    ensures (x + d) / DIV10 == x / DIV10 + (x % DIV10 + d) / DIV10
    ensures (x + d) % DIV10 == (x % DIV10 + d) % DIV10
  {
    var y := x % DIV10 + d;
    assert x == DIV10 * (x / DIV10) + x % DIV10;
    assert y == DIV10 * (y / DIV10) + y % DIV10;
    QuotientIs(x + d, x / DIV10 + y / DIV10, y % DIV10);
  }

  lemma AdvanceAdd(m: Machine, c: nat, d: nat)
    ensures Advance(Advance(m, c), d) == Advance(m, c + d)
  {
    hide Ticks;
    SplitCycles(m.phase + c, d);
    var first := (m.phase + c) / DIV10;
    var second := ((m.phase + c) % DIV10 + d) / DIV10;
    TicksAdd(m.a, first, second);
    TicksAdd(m.b, first, second);
  }

  // ---------- register writes ----------

  function SetLow(latch: nat, val: Reg): nat {
    latch / 256 * 256 + val.Number()
  }

  function SetHigh(latch: nat, val: Reg): nat {
    latch % 256 + val.Number() * 256
  }

  /** What a write to a timer register does to the timers (registers 4-7, 12, 14 and 15). */
  function Written(s: Timers, reg: nat, val: Reg): Timers {
    match reg
    case 4 => s.(la := SetLow(s.la, val))
    case 5 =>
      var l := SetHigh(s.la, val);
      var t := s.(la := l, ta := if !s.cra.Has(1) || s.cra.Has(8) then l else s.ta);
      if s.cra.Has(8) then t.(cra := s.cra.Set(1), starta := CIASTARTCYCLESHI) else t
    case 6 => s.(lb := SetLow(s.lb, val))
    case 7 =>
      var l := SetHigh(s.lb, val);
      var t := s.(lb := l, tb := if !s.crb.Has(1) || s.crb.Has(8) then l else s.tb);
      if s.crb.Has(8) then t.(crb := s.crb.Set(1), startb := CIASTARTCYCLESHI) else t
    case 12 =>
      var cnt := if s.cra.Has(0x40) then s.sdrCnt else 0;
      s.(sdrCnt := if s.cra.Has(0x40) && s.cra.Has(1) && cnt == 0 then 16 else cnt)
    case 14 =>
      var v := val.Clear(0x80);
      s.(cra := v.Clear(0x10),
         starta := if v.Has(1) && !s.cra.Has(1) then CIASTARTCYCLESCRA else s.starta,
         ta := if v.Has(0x10) then s.la else s.ta)
    case 15 =>
      s.(crb := val.Clear(0x10),
         startb := if val.Has(1) && !s.crb.Has(1) then CIASTARTCYCLESCRA else s.startb,
         tb := if val.Has(0x10) then s.lb else s.tb)
    case _ => s
  }

  /** The start delay block that CIA_update_check repeats for every timer: `check` tells whether the counter moves. */
  method RunDown(start: nat, clocks: nat) returns (check: bool, cc: nat, left: nat)
    requires start > 0
    ensures check == (clocks > start) && left == Monus(start, clocks)
    ensures check ==> cc == Monus(clocks, start)
    ensures !check ==> Monus(clocks, start) == 0
  {
    check, cc, left := true, clocks, start;
    if cc > start {
      cc := cc - start;
      left := 0;
    } else {
      left := left - cc;
      check := false;
    }
  }

  /** One CIA's static timer variables. */
  class Chip {
    var cra: Reg
    var crb: Reg
    var ta: int
    var tb: int
    var la: nat
    var lb: nat
    var starta: nat
    var startb: nat
    var sdrCnt: nat
    var icr: Reg
    var taPassed: int
    var tbPassed: int

    function State(): Timers
      reads this
    {
      Timers(cra, crb, ta, tb, la, lb, starta, startb, sdrCnt, icr)
    }

    /** The timer part of CIA_reset. */
    constructor ()
      ensures State() == Timers(Reg(0x04), Reg(0x04), 0xFFFF, 0xFFFF, 0xFFFF, 0xFFFF, 0, 0, 0, Reg(0))
    {
      cra, crb := Reg(0x04), Reg(0x04);
      la, lb, ta, tb := 0xFFFF, 0xFFFF, 0xFFFF, 0xFFFF;
      starta, startb := 0, 0;
      sdrCnt, icr, taPassed, tbPassed := 0, Reg(0), 0, 0;
    }

    /** The timer A block of CIA_update_check, with the source's assertion. */
    method CountTimerA(ciaclocks: nat) returns (ovfla: bool, ovflb: bool, sp: bool)
      requires State().Ok() && (State().RunsA() ==> ciaclocks <= ta + starta + 1)
      modifies this`ta, this`tb, this`starta, this`sdrCnt
      ensures ovfla == (ClockedA(cra) && ciaclocks == old(ta) + old(starta) + 1)
      ensures ovflb == (ovfla && CountsA(crb) && old(tb) == 0)
      ensures sp == (ovfla && SerialOut(cra) && old(sdrCnt) == 1)
      ensures starta == if ClockedA(cra) then Monus(old(starta), ciaclocks) else old(starta)
      ensures ta == if ClockedA(cra) then old(ta) - Monus(ciaclocks, old(starta)) else old(ta)
      ensures tb == if ovfla && CountsA(crb) then old(tb) - 1 else old(tb)
      ensures sdrCnt == if ovfla && SerialOut(cra) && old(sdrCnt) > 0 then old(sdrCnt) - 1 else old(sdrCnt)
    {
      hide ClockedA, CountsA, SerialOut;
      ovfla, ovflb, sp := false, false, false;
      if ClockedA(cra) {
        var check, cc := true, ciaclocks;
        if starta > 0 {
          check, cc, starta := RunDown(starta, cc);
        }
        if check {
          assert ta + 1 >= cc;
          if ta + 1 == cc {
            if SerialOut(cra) && sdrCnt > 0 {
              sdrCnt := sdrCnt - 1;
              sp := sdrCnt == 0;
            }
            ovfla := true;
            if CountsA(crb) {
              ovflb := tb == 0;
              tb := tb - 1;
            }
          }
          ta := ta - cc;
        }
      }
    }

    /** The timer B block. */
    method CountTimerB(ciaclocks: nat) returns (ovflb: bool)
      requires State().RunsB() ==> 0 <= tb && ciaclocks <= tb + startb + 1
      modifies this`tb, this`startb
      ensures ovflb == (ClockedB(crb) && ciaclocks == old(tb) + old(startb) + 1)
      ensures startb == if ClockedB(crb) then Monus(old(startb), ciaclocks) else old(startb)
      ensures tb == if ClockedB(crb) then old(tb) - Monus(ciaclocks, old(startb)) else old(tb)
    {
      hide ClockedB;
      ovflb := false;
      if ClockedB(crb) {
        var check, cc := true, ciaclocks;
        if startb > 0 {
          check, cc, startb := RunDown(startb, cc);
        }
        if check {
          assert tb + 1 >= cc;
          ovflb := tb + 1 == cc;
          tb := tb - cc;
        }
      }
    }

    /** This chip's half of CIA_update_check: catch up with `ciaclocks` E-clocks at once. */
    method UpdateCheck(ciaclocks: nat) returns (raised: bool)
      requires State().Ok() && Within(State(), ciaclocks)
      modifies this
      ensures State() == Ticks(old(State()), ciaclocks)
      ensures State().Ok()
      ensures !raised ==> icr == old(icr)
    {
      hide Ticks, Tick, ClockedA, ClockedB, CountsA, SerialOut, Stopped, Raise;
      TicksInClosedForm(State(), ciaclocks);
      if CountsA(crb) {
        CascadeIsNotClocked(crb);
      }
      RaiseNothing(icr);
      var ovfla, ovflb, sp := CountTimerA(ciaclocks);
      var ovflb2 := CountTimerB(ciaclocks);
      ovflb := ovflb || ovflb2;
      raised := ovfla || ovflb || sp;
      icr := Raise(icr, ovfla, ovflb, sp);
      if ovfla {
        ta := la;
        cra := Stopped(cra);
      }
      if ovflb {
        tb := lb;
        crb := Stopped(crb);
      }
    }

    /** This chip's half of compute_passed_time, with the source's assertions. */
    method ComputePassedTime(ciaclocks: nat)
      requires State().Ok() && Within(State(), ciaclocks)
      modifies this`taPassed, this`tbPassed
      ensures ta - taPassed == Aged(State(), ciaclocks).ta && tb - tbPassed == Aged(State(), ciaclocks).tb
    {
      hide ClockedA, ClockedB;
      taPassed, tbPassed := 0, 0;
      if ClockedA(cra) {
        var cc := ciaclocks;
        if cc > starta {
          cc := cc - starta;
        } else {
          cc := 0;
        }
        assert ta + 1 >= cc;
        taPassed := cc;
      }
      if ClockedB(crb) {
        var cc := ciaclocks;
        if cc > startb {
          cc := cc - startb;
        } else {
          cc := 0;
        }
        assert tb + 1 >= cc;
        tbPassed := cc;
      }
    }

    /** The register update inside WriteCIAA and WriteCIAB, after CIA_update. */
    method SetRegister(reg: nat, val: Reg)
      requires State().Ok()
      modifies this
      ensures State() == Written(old(State()), reg, val) && State().Ok()
    {
      hide ClockedA, ClockedB, Stopped;
      hide Reg.Has, Reg.Set, Reg.Clear, SetLow, SetHigh;
      match reg
      case 4 =>
        la := SetLow(la, val);
      case 5 =>
        la := SetHigh(la, val);
        if !cra.Has(1) {
          ta := la;
        }
        if cra.Has(8) {
          ta := la;
          cra := cra.Set(1);
          starta := CIASTARTCYCLESHI;
        }
      case 6 =>
        lb := SetLow(lb, val);
      case 7 =>
        lb := SetHigh(lb, val);
        if !crb.Has(1) {
          tb := lb;
        }
        if crb.Has(8) {
          tb := lb;
          crb := crb.Set(1);
          startb := CIASTARTCYCLESHI;
        }
      case 12 =>
        if !cra.Has(0x40) {
          sdrCnt := 0;
        }
        if cra.Has(0x40) && cra.Has(1) && sdrCnt == 0 {
          sdrCnt := 8 * 2;
        }
      case 14 =>
        var v := val.Clear(0x80);
        if v.Has(1) && !cra.Has(1) {
          starta := CIASTARTCYCLESCRA;
        }
        cra := v;
        if cra.Has(0x10) {
          ta := la;
        }
        cra := cra.Clear(0x10);
      case 15 =>
        if val.Has(1) && !crb.Has(1) {
          startb := CIASTARTCYCLESCRA;
        }
        crb := val;
        if crb.Has(0x10) {
          tb := lb;
        }
        crb := crb.Clear(0x10);
      case _ =>
    }
  }

  // ---------- both CIAs under one event ----------

  function LowByte(x: int): nat {
    x % 256
  }

  function HighByte(x: int): nat {
    x / 256 % 256
  }

  /** What a timer or control register shows. */
  function Shown(s: Timers, reg: nat): nat {
    match reg
    case 4 => LowByte(s.ta)
    case 5 => HighByte(s.ta)
    case 6 => LowByte(s.tb)
    case 7 => HighByte(s.tb)
    case 14 => s.cra.Number()
    case 15 => s.crb.Number()
    case _ => 0
  }

  /** Another event of the event table: so many cycles after the one before, with a handler that leaves the CIAs alone
      or, at a vertical blank, calls CIA_handler. */
  datatype Other = Other(wait: nat, blank: bool)

  /** What happens to the CIAs from outside.  `held` tells whether do_cycles_slow, at the last line of a frame, would
      rather wait.  Owe is do_extra_cycles and the subtractions of translated code, Skip is cycles_do_special. */
  datatype Action = Pass(cycles: nat, held: bool, others: seq<Other>) | Owe(cycles: nat) | Skip(jit: bool) | Vsync
                  | Write(toA: bool, reg: nat, val: Reg) | Read(fromA: bool, reg: nat)
                  | Acknowledge(ofA: bool, bits: bv8)

  /** The stepped machines, and the cycles that pass uncounted until time is looked at again. */
  datatype World = World(m: Machine, countdown: int)

  function MachineWrite(m: Machine, toA: bool, reg: nat, val: Reg): Machine {
    if toA then m.(a := Written(m.a, reg, val)) else m.(b := Written(m.b, reg, val))
  }

  /** Flags that a read of the interrupt register has returned are cleared. */
  function MachineAcknowledge(m: Machine, ofA: bool, bits: bv8): Machine {
    if ofA then m.(a := m.a.(icr := m.a.icr.Clear(bits))) else m.(b := m.b.(icr := m.b.icr.Clear(bits)))
  }

  /** Cycles are counted down first.  When the countdown is used up the rest passes, or the countdown starts again. */
  function Passing(w: World, cycles: nat, held: bool): World {
    var left := w.countdown - cycles;
    if left >= 0 then w.(countdown := left)
    else if held then w.(countdown := HOLDOFF)
    else World(Advance(w.m, -left), 0)
  }

  /** cycles_do_special ends the countdown. */
  function Skipped(countdown: int, jit: bool): int {
    if !jit then 0 else if countdown >= 0 then -1 else countdown
  }

  /** One action on the stepped machines. */
  function React(w: World, x: Action): World {
    match x
    case Pass(c, held, _) => Passing(w, c, held)
    case Owe(c) => w.(countdown := w.countdown - c)
    case Skip(jit) => w.(countdown := Skipped(w.countdown, jit))
    case Vsync => w
    case Write(toA, reg, val) => w.(m := MachineWrite(w.m, toA, reg, val))
    case Read(_, _) => w
    case Acknowledge(ofA, bits) => w.(m := MachineAcknowledge(w.m, ofA, bits))
  }

  /** A whole history on the stepped machines. */
  function History(w: World, xs: seq<Action>): World {
    if |xs| == 0 then w else React(History(w, xs[..|xs| - 1]), xs[|xs| - 1])
  }

  /** The values the reads of a history return on the stepped machines. */
  function HistoryReads(w: World, xs: seq<Action>): seq<nat> {
    if |xs| == 0 then [] else
      var before, x := xs[..|xs| - 1], xs[|xs| - 1];
      var now := History(w, before).m;
      HistoryReads(w, before) + (if x.Read? then [Shown(if x.fromA then now.a else now.b, x.reg)] else [])
  }

  /** Cycles from an update with remainder div10 until a counter with start delay underflows. */
  function DueIn(div10: nat, t: int, start: nat): int {
    DIV10 - div10 + DIV10 * (t + start)
  }

  /** When the next underflow of an E-clock timer comes, -1 when the timer is not counting E-clocks. */
  function TimeA(s: Timers, div10: nat): int {
    if s.RunsA() then DueIn(div10, s.ta, s.starta) else -1
  }

  function TimeB(s: Timers, div10: nat): int {
    if s.RunsB() then DueIn(div10, s.tb, s.startb) else -1
  }

  /** The smaller of two times, ignoring -1. */
  function Sooner(best: int, time: int): int {
    if time != -1 && (best == -1 || time < best) then time else best
  }

  /** The event time CIA_calctimers computes. */
  function Earliest(a: Timers, b: Timers, div10: nat): int {
    Sooner(Sooner(Sooner(TimeA(a, div10), TimeB(a, div10)), TimeA(b, div10)), TimeB(b, div10))
  }

  lemma SoonerLaws(best: int, time: int)
    requires (best == -1 || best > 0) && (time == -1 || time > 0)
    ensures var r := Sooner(best, time);
      && (r == -1 || r > 0) && (r == best || r == time) && (r == -1 <==> best == -1 && time == -1)
      && (best != -1 ==> r <= best) && (time != -1 ==> r <= time)
  {
  }

  lemma TimesPositive(s: Timers, div10: nat)
    requires s.Ok() && div10 < DIV10
    ensures (s.RunsA() <==> TimeA(s, div10) != -1) && (TimeA(s, div10) == -1 || TimeA(s, div10) > 0)
    ensures (s.RunsB() <==> TimeB(s, div10) != -1) && (TimeB(s, div10) == -1 || TimeB(s, div10) > 0)
  {
    hide ClockedA, ClockedB;
  }

  lemma EarliestIsNotLate(a: Timers, b: Timers, div10: nat)
    requires a.Ok() && b.Ok() && div10 < DIV10
    ensures var delay := Earliest(a, b, div10);
      && (delay == -1 || delay > 0)
      && NotLate(a, div10, delay != -1, delay) && NotLate(b, div10, delay != -1, delay)
      && (delay != -1 ==> delay in [TimeA(a, div10), TimeB(a, div10), TimeA(b, div10), TimeB(b, div10)])
      && (a.RunsA() <==> TimeA(a, div10) != -1) && (a.RunsB() <==> TimeB(a, div10) != -1)
      && (b.RunsA() <==> TimeA(b, div10) != -1) && (b.RunsB() <==> TimeB(b, div10) != -1)
  {
    hide ClockedA, ClockedB, DueIn, Sooner;
    TimesPositive(a, div10);
    TimesPositive(b, div10);
    var t1 := Sooner(TimeA(a, div10), TimeB(a, div10));
    var t2 := Sooner(t1, TimeA(b, div10));
    SoonerLaws(TimeA(a, div10), TimeB(a, div10));
    SoonerLaws(t1, TimeA(b, div10));
    SoonerLaws(t2, TimeB(b, div10));
  }

  /** The event does not come later than any E-clock timer's underflow. */
  predicate NotLate(s: Timers, div10: nat, active: bool, delay: int) {
    && (s.RunsA() ==> active && delay <= DueIn(div10, s.ta, s.starta))
    && (s.RunsB() ==> active && delay <= DueIn(div10, s.tb, s.startb))
  }

  /** Up to the event every timer stays within its underflow; before the event nothing underflows. */
  lemma ClocksBeforeEvent(s: Timers, div10: nat, active: bool, delay: int, elapsed: nat)
    requires s.Ok() && div10 < DIV10 && NotLate(s, div10, active, delay)
    requires active ==> elapsed <= delay
    ensures Within(s, (div10 + elapsed) / DIV10)
    ensures (active ==> elapsed < delay) ==> Quiet(s, (div10 + elapsed) / DIV10)
  {
    hide ClockedA, ClockedB;
    if s.RunsA() {
      ClocksUntil(div10, elapsed, s.ta + s.starta);
    }
    if s.RunsB() {
      ClocksUntil(div10, elapsed, s.tb + s.startb);
    }
  }

  lemma ClocksUntil(div10: nat, elapsed: nat, x: nat)
    requires div10 < DIV10 && elapsed <= DIV10 - div10 + DIV10 * x
    ensures (div10 + elapsed) / DIV10 <= x + 1
    ensures elapsed < DIV10 - div10 + DIV10 * x ==> (div10 + elapsed) / DIV10 <= x
  {
    var q := (div10 + elapsed) / DIV10;
    assert DIV10 * q <= div10 + elapsed;
    assert q >= x + 2 ==> DIV10 * q >= DIV10 * (x + 2);
    assert q == x + 1 ==> DIV10 * q == DIV10 * x + DIV10;
  }

  class Cias {
    const a: Chip
    const b: Chip
    var div10: nat
    /** get_cycles (). */
    var cycles: nat
    /** eventtab[ev_cia]. */
    var oldcycles: nat
    var active: bool
    var evtime: int
    /** pissoff. */
    var countdown: int

    ghost predicate Shape()
      reads this, a, b
    {
      && a != b && a.State().Ok() && b.State().Ok()
      && div10 < DIV10 && oldcycles <= cycles
    }

    /** The timers may be at their event, but not past it. */
    ghost predicate NotPast()
      reads this, a, b
    {
      && Shape()
      && NotLate(a.State(), div10, active, evtime - oldcycles) && NotLate(b.State(), div10, active, evtime - oldcycles)
      && (active ==> cycles <= evtime)
    }

    /** Between calls the event lies in the future. */
    ghost predicate Valid()
      reads this, a, b
    {
      NotPast() && (active ==> cycles < evtime)
    }

    /** The stepped machines the lazy state stands for. */
    ghost function Ref(): Machine
      requires oldcycles <= cycles
      reads this, a, b
    {
      Advance(Machine(a.State(), b.State(), div10), cycles - oldcycles)
    }

    /** The stepped machines and the countdown. */
    ghost function Now(): World
      requires oldcycles <= cycles
      reads this, a, b
    {
      World(Ref(), countdown)
    }

    constructor ()
      ensures Valid() && fresh(a) && fresh(b) && countdown == 0
    {
      a := new Chip();
      b := new Chip();
      div10, cycles, oldcycles, active, evtime, countdown := 0, 0, 0, false, 0, 0;
      new;
      CalcTimers();
    }

    /** CIA_update_check for both chips (CIA_update adds only the interrupt hand-off). */
    method UpdateCheck() returns (icr: bv8)
      requires NotPast()
      modifies this`div10, a, b
      ensures Shape()
      ensures Machine(a.State(), b.State(), div10) == old(Ref())
    {
      hide Ticks, ClockedA, ClockedB;
      var ccount := cycles - oldcycles + div10;
      var ciaclocks := ccount / DIV10;
      ClocksBeforeEvent(a.State(), div10, active, evtime - oldcycles, cycles - oldcycles);
      ClocksBeforeEvent(b.State(), div10, active, evtime - oldcycles, cycles - oldcycles);
      div10 := ccount % DIV10;
      var raisedA := a.UpdateCheck(ciaclocks);
      var raisedB := b.UpdateCheck(ciaclocks);
      icr := 0;
      if raisedA {
        icr := 1;
      }
      if raisedB {
        icr := icr | 2;
      }
    }

    /** CIA_calctimers: the event is the earliest underflow of the four E-clock timers. */
    method CalcTimers()
      requires Shape()
      modifies this`oldcycles, this`active, this`evtime
      ensures Valid() && oldcycles == cycles
      ensures active == (Earliest(a.State(), b.State(), div10) != -1)
      ensures active ==> evtime == cycles + Earliest(a.State(), b.State(), div10)
    {
      hide ClockedA, ClockedB, DueIn;
      EarliestIsNotLate(a.State(), b.State(), div10);
      var ciaatimea, ciaatimeb, ciabtimea, ciabtimeb := -1, -1, -1, -1;
      oldcycles := cycles;
      if ClockedA(a.cra) {
        ciaatimea := DueIn(div10, a.ta, a.starta);
      }
      if ClockedB(a.crb) {
        ciaatimeb := DueIn(div10, a.tb, a.startb);
      }
      if ClockedA(b.cra) {
        ciabtimea := DueIn(div10, b.ta, b.starta);
      }
      if ClockedB(b.crb) {
        ciabtimeb := DueIn(div10, b.tb, b.startb);
      }
      active := ciaatimea != -1 || ciaatimeb != -1 || ciabtimea != -1 || ciabtimeb != -1;
      if active {
        var ciatime := Sooner(-1, ciaatimea);
        ciatime := Sooner(ciatime, ciaatimeb);
        ciatime := Sooner(ciatime, ciabtimea);
        ciatime := Sooner(ciatime, ciabtimeb);
        evtime := ciatime + cycles;
      }
    }

    /** CIA_handler, called by the event and at every vertical blank. */
    method Handler()
      requires NotPast()
      modifies this`div10, this`oldcycles, this`active, this`evtime, a, b
      ensures Valid() && Ref() == old(Ref()) && oldcycles == cycles
    {
      hide Ticks, ClockedA, ClockedB;
      var icr := UpdateCheck();
      CalcTimers();
      AdvanceNothing(Machine(a.State(), b.State(), div10));
    }

    /** do_cycles_slow: cycles are counted down, and when the countdown is used up the rest passes. */
    method DoCycles(cyclesToAdd: nat, held: bool, others: seq<Other>)
      requires Valid()
      modifies this, a, b
      ensures Valid() && Now() == Passing(old(Now()), cyclesToAdd, held)
    {
      hide Ticks, Advance, Chip.State, NotLate;
      countdown := countdown - cyclesToAdd;
      if countdown >= 0 {
        return;
      }
      var left := -countdown;
      countdown := 0;
      if held {
        countdown := HOLDOFF;
        return;
      }
      PassTime(left, others);
    }

    /** The loop of do_cycles_slow: time runs to the next event of the table, its handlers are called, this one first,
        and so on.  What other events there are makes no difference. */
    method PassTime(cyclesToAdd: nat, others: seq<Other>)
      requires Valid()
      modifies this`div10, this`cycles, this`oldcycles, this`active, this`evtime, a, b
      ensures Valid() && cycles == old(cycles) + cyclesToAdd && Ref() == Advance(old(Ref()), cyclesToAdd)
    {
      hide Ticks, Advance, Chip.State, NotLate;
      ghost var m0 := Ref();
      var left, k: nat := cyclesToAdd, 0;
      var due := if |others| > 0 then cycles + others[0].wait else cycles;
      StartOfPass();
      while (active && evtime - cycles <= left) || (k < |others| && due - cycles <= left)
        invariant Valid() && 0 <= left <= cyclesToAdd && cycles == old(cycles) + cyclesToAdd - left
        invariant k <= |others| && (k < |others| ==> cycles <= due)
        invariant Ref() == Advance(m0, cyclesToAdd - left)
        decreases left, |others| - k
      {
        var nextevent := if active && (k == |others| || evtime <= due) then evtime else due;
        left := RunUntil(nextevent, left, m0, cyclesToAdd);
        if active && evtime == cycles {
          Handler();
        }
        if k < |others| && due == cycles {
          if others[k].blank {
            Handler();
          }
          k := k + 1;
          due := if k < |others| then cycles + others[k].wait else cycles;
        }
      }
      var end := RunUntil(cycles + left, left, m0, cyclesToAdd);
    }

    /** cycles_do_special. */
    method DoSpecial(jit: bool)
      modifies this`countdown
      ensures countdown == Skipped(old(countdown), jit)
    {
      if jit {
        if countdown >= 0 {
          countdown := -1;
        }
      } else {
        countdown := 0;
      }
    }

    lemma StartOfPass()
      requires Valid()
      ensures Advance(Ref(), 0) == Ref()
    {
      hide Ticks, Chip.State;
      PhaseBelow(Machine(a.State(), b.State(), div10), cycles - oldcycles);
      AdvanceNothing(Ref());
    }

    /** Time runs to the next event. */
    method RunUntil(nextevent: int, left: int, ghost m0: Machine, ghost all: nat) returns (rest: int)
      requires Valid() && 0 <= left <= all && cycles <= nextevent <= cycles + left && (active ==> nextevent <= evtime)
      requires Ref() == Advance(m0, all - left)
      modifies this`cycles
      ensures NotPast() && cycles == nextevent && rest == left - (nextevent - old(cycles))
      ensures Ref() == Advance(m0, all - rest)
    {
      hide Ticks, Advance, Chip.State, NotLate;
      var step := nextevent - cycles;
      AdvanceAdd(Machine(a.State(), b.State(), div10), cycles - oldcycles, step);
      AdvanceAdd(m0, all - left, step);
      cycles := nextevent;
      rest := left - step;
    }

    /** A write to a timer register of one CIA. */
    method WriteRegister(toA: bool, reg: nat, val: Reg)
      requires Valid()
      modifies this`div10, this`oldcycles, this`active, this`evtime, a, b
      ensures Valid() && Ref() == MachineWrite(old(Ref()), toA, reg, val)
    {
      hide Ticks, Written, ClockedA, ClockedB;
      var icr := UpdateCheck();
      if toA {
        a.SetRegister(reg, val);
      } else {
        b.SetRegister(reg, val);
      }
      CalcTimers();
      AdvanceNothing(Machine(a.State(), b.State(), div10));
    }

    /** The E-clocks since the last update. */
    ghost function Clocks(): nat
      reads this
    {
      if oldcycles <= cycles then (cycles - oldcycles + div10) / DIV10 else 0
    }

    /** Both halves of compute_passed_time.  Before the event the aged timers are the stepped ones. */
    method ComputePassedTime()
      requires NotPast()
      modifies a`taPassed, a`tbPassed, b`taPassed, b`tbPassed
      ensures NotPast() && Ref() == old(Ref()) && Clocks() == old(Clocks())
      ensures a.ta - a.taPassed == Aged(a.State(), Clocks()).ta && a.tb - a.tbPassed == Aged(a.State(), Clocks()).tb
      ensures b.ta - b.taPassed == Aged(b.State(), Clocks()).ta && b.tb - b.tbPassed == Aged(b.State(), Clocks()).tb
      ensures old(Valid()) ==> Valid() && Aged(a.State(), Clocks()) == Ref().a && Aged(b.State(), Clocks()) == Ref().b
    {
      hide Ticks, ClockedA, ClockedB, Aged;
      var ccount := cycles - oldcycles + div10;
      var ciaclocks := ccount / DIV10;
      ClocksBeforeEvent(a.State(), div10, active, evtime - oldcycles, cycles - oldcycles);
      ClocksBeforeEvent(b.State(), div10, active, evtime - oldcycles, cycles - oldcycles);
      if Valid() {
        QuietTicks(a.State(), ciaclocks);
        QuietTicks(b.State(), ciaclocks);
      }
      a.ComputePassedTime(ciaclocks);
      b.ComputePassedTime(ciaclocks);
    }

    /** A read of a timer or control register: compute_passed_time, then the register case.  Up to the event it returns
        what the aged timers show; before the event that is what the stepped machine shows. */
    method ReadRegister(fromA: bool, reg: nat) returns (v: nat)
      requires NotPast()
      modifies a`taPassed, a`tbPassed, b`taPassed, b`tbPassed
      ensures NotPast() && Ref() == old(Ref()) && Clocks() == old(Clocks())
      ensures v == Shown(Aged(if fromA then a.State() else b.State(), Clocks()), reg)
      ensures old(Valid()) ==> Valid() && v == Shown(if fromA then Ref().a else Ref().b, reg)
    {
      hide Advance, NotPast, Valid, Clocks, ClockedA, ClockedB, LowByte, HighByte;
      ComputePassedTime();
      var chip := if fromA then a else b;
      match reg
      case 4 => v := LowByte(chip.ta - chip.taPassed);
      case 5 => v := HighByte(chip.ta - chip.taPassed);
      case 6 => v := LowByte(chip.tb - chip.tbPassed);
      case 7 => v := HighByte(chip.tb - chip.tbPassed);
      case 14 => v := chip.cra.Number();
      case 15 => v := chip.crb.Number();
      case _ => v := 0;
    }

    /** The clearing of ciaaicr or ciabicr in a read of register 13, which does not update the timers first. */
    method ClearFlags(ofA: bool, bits: bv8)
      requires Valid()
      modifies a`icr, b`icr
      ensures Valid() && Ref() == MachineAcknowledge(old(Ref()), ofA, bits)
    {
      hide Ticks, ClockedA, ClockedB, Reg.Clear;
      var ciaclocks := (cycles - oldcycles + div10) / DIV10;
      ClocksBeforeEvent(a.State(), div10, active, evtime - oldcycles, cycles - oldcycles);
      ClocksBeforeEvent(b.State(), div10, active, evtime - oldcycles, cycles - oldcycles);
      QuietTicks(a.State(), ciaclocks);
      QuietTicks(b.State(), ciaclocks);
      if ofA {
        a.icr := a.icr.Clear(bits);
      } else {
        b.icr := b.icr.Clear(bits);
      }
      QuietTicks(a.State(), ciaclocks);
      QuietTicks(b.State(), ciaclocks);
    }

    /** Over any history of passing and postponed time, blanks, writes, reads and acknowledged flags, the lazy CIAs are
        the stepped ones. */
    method Run(xs: seq<Action>) returns (seen: seq<nat>)
      requires Valid()
      modifies this, a, b
      ensures Valid() && Now() == History(old(Now()), xs) && seen == HistoryReads(old(Now()), xs)
    {
      hide Passing, Skipped, Advance, MachineWrite, MachineAcknowledge, Shown, Chip.State, NotLate;
      ghost var w0 := Now();
      seen := [];
      for i := 0 to |xs|
        invariant Valid() && Now() == History(w0, xs[..i]) && seen == HistoryReads(w0, xs[..i])
      {
        assert xs[..i + 1][..i] == xs[..i];
        match xs[i]
        case Pass(c, held, others) => DoCycles(c, held, others);
        case Owe(c) => countdown := countdown - c;
        case Skip(jit) => DoSpecial(jit);
        case Vsync => Handler();
        case Write(toA, reg, val) => WriteRegister(toA, reg, val);
        case Read(fromA, reg) =>
          var v := ReadRegister(fromA, reg);
          seen := seen + [v];
        case Acknowledge(ofA, bits) => ClearFlags(ofA, bits);
      }
      assert xs[..|xs|] == xs;
    }
  }

  lemma AdvanceNothing(m: Machine)
    requires m.phase < DIV10
    ensures Advance(m, 0) == m
  {
  }

  lemma PhaseBelow(m: Machine, c: nat)
    ensures Advance(m, c).phase < DIV10
  {
  }

  // ---------- why the handler has to come first ----------

  /** The condition under which a register that is read in the very cycle of the event, before the handler has run,
      already shows what the stepped machine shows.  A due counter shows 0xFFFF instead of its latch, a timer B that
      counts timer A has not counted yet, and a one-shot timer still looks started. */
  predicate AgreesAtEvent(s: Timers, n: nat, reg: nat) {
    var overA := s.RunsA() && n == s.ta + s.starta + 1;
    var overB := s.RunsB() && n == s.tb + s.startb + 1;
    var counted := overA && s.Cascaded();
    match reg
    case 4 => overA ==> LowByte(s.la) == 0xFF
    case 5 => overA ==> HighByte(s.la) == 0xFF
    case 6 => (overB ==> LowByte(s.lb) == 0xFF) && (counted ==> s.tb == 0 && LowByte(s.lb) == 0)
    case 7 =>
      && (overB ==> HighByte(s.lb) == 0xFF)
      && (counted ==> if s.tb == 0 then HighByte(s.lb) == 0 else LowByte(s.tb) != 0)
    case 14 => overA ==> !s.cra.Has(8)
    case 15 => overB || (counted && s.tb == 0) ==> !s.crb.Has(8)
    case _ => true
  }

  /** What ReadRegister returns up to and including the event time agrees with the stepped machine exactly then. */
  lemma ReadAgreesIff(s: Timers, n: nat, reg: nat)
    requires s.Ok() && Within(s, n)
    ensures Shown(Aged(s, n), reg) == Shown(Ticks(s, n), reg) <==> AgreesAtEvent(s, n, reg)
  {
    hide Ticks, ClockedA, ClockedB, CountsA, SerialOut, Raise, Stopped, LowByte, HighByte, Reg.Has;
    TicksInClosedForm(s, n);
    BytesOfDue();
    BytesBelow(s.tb);
    RunningIsStarted(s.cra, s.crb);
    StoppedShows(s.cra);
    StoppedShows(s.crb);
    if s.Cascaded() {
      CascadeIsNotClocked(s.crb);
    }
  }

  lemma BytesOfDue()
    ensures LowByte(-1) == 0xFF && HighByte(-1) == 0xFF && LowByte(0) == 0 && HighByte(0) == 0
  {
  }

  lemma BytesBelow(t: int)
    ensures LowByte(t - 1) != LowByte(t)
    ensures HighByte(t - 1) == HighByte(t) <==> LowByte(t) != 0
  {
  }

  lemma RunningIsStarted(cra: Reg, crb: Reg)
    ensures ClockedA(cra) ==> cra.Has(1)
    ensures ClockedB(crb) || CountsA(crb) ==> crb.Has(1)
  {
  }

  /** Whether stopping a started timer shows in its control register. */
  lemma StoppedShows(cr: Reg)
    ensures cr.Has(1) ==> (Stopped(cr).Number() == cr.Number() <==> !cr.Has(8))
  {
    SameNumber(Stopped(cr).v, cr.v);
  }

  lemma SameNumber(x: bv8, y: bv8)
    ensures x as nat == y as nat <==> x == y
  {
    if x as nat == y as nat {
      assert (x as nat) as bv8 == x && (y as nat) as bv8 == y;
    }
  }
}
