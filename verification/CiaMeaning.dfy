/** What the timer registers are for: when a programmed timer raises its flag, said in numbers and register bits alone,
    without the stepped machine's own parts. */
module CiaMeaning {
  import opened Register
  import opened CiaTimers

  // ---------- the bits of the control registers ----------

  lemma Modes(cra: Reg, crb: Reg)
    ensures ClockedA(cra) <==> cra.Has(0x01) && !cra.Has(0x20)
    ensures ClockedB(crb) <==> crb.Has(0x01) && !crb.Has(0x20) && !crb.Has(0x40)
    ensures CountsA(crb) <==> crb.Has(0x01) && crb.Has(0x40)
    ensures SerialOut(cra) <==> cra.Has(0x40) && !cra.Has(0x08)
  {
  }

  /** Stopping clears the start bit of a one-shot timer and no other. */
  lemma StopBit(cr: Reg)
    ensures Stopped(cr).Has(0x01) <==> cr.Has(0x01) && !cr.Has(0x08)
    ensures !cr.Has(0x08) ==> Stopped(cr) == cr
    ensures Stopped(cr).v | 0x01 == cr.v | 0x01
  {
  }

  // ---------- flags ----------

  /** The next E-clock raises a flag: it is set afterwards even if no flag was set before. */
  predicate Raises(s: Timers, mask: bv8) {
    Tick(s.(icr := Reg(0))).icr.Has(mask)
  }

  /** The clock after the first n raises a flag. */
  predicate RaisedAt(s: Timers, n: nat, mask: bv8) {
    Raises(Ticks(s, n), mask)
  }

  /** Flag 1 is timer A's end, 2 timer B's, 8 the last half bit of the serial port; there are no others. */
  lemma RaiseBits(icr: Reg, a: bool, b: bool, sp: bool)
    ensures Raise(icr, a, b, sp).Has(0x01) <==> icr.Has(0x01) || a
    ensures Raise(icr, a, b, sp).Has(0x02) <==> icr.Has(0x02) || b
    ensures Raise(icr, a, b, sp).Has(0x08) <==> icr.Has(0x08) || sp
    ensures Raise(icr, a, b, sp).v & 0xF4 == icr.v & 0xF4
  {
  }

  lemma NoFlag(mask: bv8)
    ensures !Reg(0).Has(mask)
  {
  }

  /** One E-clock, field by field. */
  lemma TickFields(s: Timers)
    requires s.Ok()
    ensures var t := Tick(s);
      var endA := s.RunsA() && s.starta == 0 && s.ta == 0;
      var endB := if s.RunsB() then s.startb == 0 && s.tb == 0 else endA && s.Cascaded() && s.tb == 0;
      && t.Ok() && t.la == s.la && t.lb == s.lb
      && t.cra == (if endA then Stopped(s.cra) else s.cra)
      && t.crb == (if endB then Stopped(s.crb) else s.crb)
      && t.starta == (if s.RunsA() then Monus(s.starta, 1) else s.starta)
      && t.startb == (if s.RunsB() then Monus(s.startb, 1) else s.startb)
      && t.ta == (if endA then s.la else if s.RunsA() && s.starta == 0 then s.ta - 1 else s.ta)
      && t.tb == (if endB then s.lb
                  else if (s.RunsB() && s.startb == 0) || (endA && s.Cascaded()) then s.tb - 1 else s.tb)
      && t.sdrCnt == (if endA && SerialOut(s.cra) && s.sdrCnt > 0 then s.sdrCnt - 1 else s.sdrCnt)
      && t.icr == Raise(s.icr, endA, endB, endA && SerialOut(s.cra) && s.sdrCnt == 1)
  {
    hide ClockedA, ClockedB, CountsA, SerialOut, Stopped, Raise;
    RaiseNothing(s.icr);
    RaiseInAnyOrder(s.icr, true, true);
    RaiseInAnyOrder(s.icr, true, false);
    if s.Cascaded() {
      CascadeIsNotClocked(s.crb);
    }
  }

  /** The clock at which each flag is raised. */
  lemma RaisesWhen(s: Timers)
    requires s.Ok()
    ensures Raises(s, 0x01) <==> s.RunsA() && s.starta == 0 && s.ta == 0
    ensures Raises(s, 0x02) <==>
            s.tb == 0 && if s.RunsB() then s.startb == 0 else s.Cascaded() && Raises(s, 0x01)
    ensures Raises(s, 0x08) <==> Raises(s, 0x01) && SerialOut(s.cra) && s.sdrCnt == 1
  {
    hide ClockedA, ClockedB, CountsA, SerialOut, Stopped, Raise, Tick, Reg.Has;
    var z := s.(icr := Reg(0));
    TickFields(z);
    var endA := s.RunsA() && s.starta == 0 && s.ta == 0;
    var endB := if s.RunsB() then s.startb == 0 && s.tb == 0 else endA && s.Cascaded() && s.tb == 0;
    RaiseBits(Reg(0), endA, endB, endA && SerialOut(s.cra) && s.sdrCnt == 1);
    NoFlag(0x01);
    NoFlag(0x02);
    NoFlag(0x08);
  }

  /** A flag is set after n clocks if and only if it was set before or one of them has raised it. */
  lemma {:induction false} FlagIff(s: Timers, n: nat, mask: bv8)
    requires s.Ok() && mask in [0x01, 0x02, 0x08]
    ensures Ticks(s, n).Ok()
    ensures Ticks(s, n).icr.Has(mask) <==> s.icr.Has(mask) || exists k: nat :: k < n && RaisedAt(s, k, mask)
  {
    hide ClockedA, ClockedB, CountsA, SerialOut, Stopped, Raise, Tick, Reg.Has;
    if n > 0 {
      FlagIff(s, n - 1, mask);
      var t := Ticks(s, n - 1);
      TickFields(t);
      RaisesWhen(t);
      var endA := t.RunsA() && t.starta == 0 && t.ta == 0;
      var endB := if t.RunsB() then t.startb == 0 && t.tb == 0 else endA && t.Cascaded() && t.tb == 0;
      RaiseBits(t.icr, endA, endB, endA && SerialOut(t.cra) && t.sdrCnt == 1);
      assert Ticks(s, n).icr.Has(mask) <==> t.icr.Has(mask) || RaisedAt(s, n - 1, mask);
    }
  }

  // ---------- a counter with a latch ----------

  /** A counter that started at t, after u counts: down to 0, and on from its latch. */
  function CountDown(t: int, latch: nat, u: nat): int {
    if u <= t then t - u else latch - (u - t - 1) % (latch + 1)
  }

  /** Count number u (counted from 0) finds the counter at 0. */
  predicate Ends(t: int, latch: nat, u: nat) {
    u >= t && (u - t) % (latch + 1) == 0
  }

  /** How often the counter has ended in u counts. */
  function Overs(t: int, latch: nat, u: nat): int {
    if u <= t then 0 else (u - t - 1) / (latch + 1) + 1
  }

  lemma DivModStep(x: nat, p: nat)
    requires p > 0
    ensures (x + 1) % p == (if x % p == p - 1 then 0 else x % p + 1)
    ensures (x + 1) / p == (if x % p == p - 1 then x / p + 1 else x / p)
  {
    var q, r := x / p, x % p;
    assert x == p * q + r;
    if r == p - 1 {
      assert x + 1 == p * (q + 1);
      DivModIs(x + 1, p, q + 1, 0);
    } else {
      DivModIs(x + 1, p, q, r + 1);
    }
  }

  lemma DivModIs(x: nat, p: nat, q: nat, r: nat)
    requires x == p * q + r && r < p
    ensures x / p == q && x % p == r
  {
    var d, m := x / p, x % p;
    assert x == p * d + m;
    assert d < q ==> p * (d + 1) <= p * q;
    assert d > q ==> p * (q + 1) <= p * d;
  }

  lemma CountStep(t: int, latch: nat, u: nat)
    requires t >= 0
    ensures 0 <= CountDown(t, latch, u) && 0 <= Overs(t, latch, u)
    ensures CountDown(t, latch, u) == 0 <==> Ends(t, latch, u)
    ensures CountDown(t, latch, u + 1) == if Ends(t, latch, u) then latch else CountDown(t, latch, u) - 1
    ensures Overs(t, latch, u + 1) == Overs(t, latch, u) + if Ends(t, latch, u) then 1 else 0
  {
    if u > t {
      DivModStep(u - t - 1, latch + 1);
    }
  }

  // ---------- a timer that was started ----------

  /** A continuous timer A raises flag 1 once its counter has run out after the start delay, and then every latch + 1
      clocks. */
  lemma {:induction false} FreeRunningA(s: Timers, n: nat)
    requires s.Ok() && s.cra.Has(0x01) && !s.cra.Has(0x20) && !s.cra.Has(0x08)
    ensures var t := Ticks(s, n);
      && t.Ok() && t.cra == s.cra && t.la == s.la && t.starta == Monus(s.starta, n)
      && t.ta == CountDown(s.ta, s.la, Monus(n, s.starta))
    ensures RaisedAt(s, n, 0x01) <==> n >= s.starta + s.ta && (n - s.starta - s.ta) % (s.la + 1) == 0
  {
    hide ClockedA, ClockedB, CountsA, SerialOut, Stopped, Raise, Raises, Tick, Reg.Has, CountDown;
    Modes(s.cra, s.crb);
    StopBit(s.cra);
    if n > 0 {
      FreeRunningA(s, n - 1);
      TickFields(Ticks(s, n - 1));
      CountStep(s.ta, s.la, Monus(n - 1, s.starta));
    } else {
      CountNone(s.ta, s.la);
    }
    RaisesWhen(Ticks(s, n));
    CountStep(s.ta, s.la, Monus(n, s.starta));
  }

  lemma CountNone(t: int, latch: nat)
    requires t >= 0
    ensures CountDown(t, latch, 0) == t && Overs(t, latch, 0) == 0
  {
  }

  /** A one-shot timer A raises flag 1 once, stops then, and has its latch in the counter from then on. */
  lemma {:induction false} OneShotA(s: Timers, n: nat)
    requires s.Ok() && s.cra.Has(0x01) && !s.cra.Has(0x20) && s.cra.Has(0x08)
    ensures var t := Ticks(s, n);
      && t.Ok() && t.la == s.la && t.starta == Monus(s.starta, n)
      && t.cra.Has(0x01) == (n <= s.starta + s.ta) && (n <= s.starta + s.ta ==> t.cra == s.cra)
      && t.ta == if n <= s.starta + s.ta then s.ta - Monus(n, s.starta) else s.la
    ensures RaisedAt(s, n, 0x01) <==> n == s.starta + s.ta
  {
    hide ClockedA, ClockedB, CountsA, SerialOut, Stopped, Raise, Raises, Tick, Reg.Has;
    StopBit(s.cra);
    if n > 0 {
      OneShotA(s, n - 1);
      TickFields(Ticks(s, n - 1));
      Modes(Ticks(s, n - 1).cra, s.crb);
    }
    Modes(Ticks(s, n).cra, s.crb);
    RaisesWhen(Ticks(s, n));
  }

  /** A continuous timer B that counts E-clocks. */
  lemma {:induction false} FreeRunningB(s: Timers, n: nat)
    requires s.Ok() && s.crb.Has(0x01) && !s.crb.Has(0x20) && !s.crb.Has(0x40) && !s.crb.Has(0x08)
    ensures var t := Ticks(s, n);
      && t.Ok() && t.crb == s.crb && t.lb == s.lb && t.startb == Monus(s.startb, n)
      && t.tb == CountDown(s.tb, s.lb, Monus(n, s.startb))
    ensures RaisedAt(s, n, 0x02) <==> n >= s.startb + s.tb && (n - s.startb - s.tb) % (s.lb + 1) == 0
  {
    hide ClockedA, ClockedB, CountsA, SerialOut, Stopped, Raise, Raises, Tick, Reg.Has, CountDown;
    Modes(s.cra, s.crb);
    StopBit(s.crb);
    if n > 0 {
      FreeRunningB(s, n - 1);
      TickFields(Ticks(s, n - 1));
      CountStep(s.tb, s.lb, Monus(n - 1, s.startb));
    } else {
      CountNone(s.tb, s.lb);
    }
    RaisesWhen(Ticks(s, n));
    CountStep(s.tb, s.lb, Monus(n, s.startb));
  }

  /** A one-shot timer B that counts E-clocks. */
  lemma {:induction false} OneShotB(s: Timers, n: nat)
    requires s.Ok() && s.crb.Has(0x01) && !s.crb.Has(0x20) && !s.crb.Has(0x40) && s.crb.Has(0x08)
    ensures var t := Ticks(s, n);
      && t.Ok() && t.lb == s.lb && t.startb == Monus(s.startb, n)
      && t.crb.Has(0x01) == (n <= s.startb + s.tb) && (n <= s.startb + s.tb ==> t.crb == s.crb)
      && t.tb == if n <= s.startb + s.tb then s.tb - Monus(n, s.startb) else s.lb
    ensures RaisedAt(s, n, 0x02) <==> n == s.startb + s.tb
  {
    hide ClockedA, ClockedB, CountsA, SerialOut, Stopped, Raise, Raises, Tick, Reg.Has;
    StopBit(s.crb);
    Modes(s.cra, s.crb);
    if n > 0 {
      OneShotB(s, n - 1);
      TickFields(Ticks(s, n - 1));
      Modes(s.cra, Ticks(s, n - 1).crb);
    }
    Modes(s.cra, Ticks(s, n).crb);
    RaisesWhen(Ticks(s, n));
  }

  /** How often a free running timer A has ended in n clocks. */
  function EndsOfA(s: Timers, n: nat): int {
    Overs(s.ta, s.la, Monus(n, s.starta))
  }

  /** The clock at which a free running timer A ends for the k-th time (counted from 0). */
  function EndClock(s: Timers, k: int): int {
    s.starta + s.ta + k * (s.la + 1)
  }

  lemma EndNumber(s: Timers, n: nat)
    requires s.Ok() && s.cra.Has(0x01) && !s.cra.Has(0x20) && !s.cra.Has(0x08)
    ensures EndsOfA(s, n) >= 0
    ensures RaisedAt(s, n, 0x01) ==> n == EndClock(s, EndsOfA(s, n))
  {
    hide Ticks, RaisedAt, Reg.Has;
    FreeRunningA(s, n);
    var p := s.la + 1;
    CountStep(s.ta, s.la, Monus(n, s.starta));
    if n >= s.starta + s.ta {
      var x := n - s.starta - s.ta;
      if x % p == 0 && x > 0 {
        DivModStep(x - 1, p);
      }
      assert x == p * (x / p) + x % p;
    }
  }

  lemma EndClockEnds(s: Timers, k: nat)
    requires s.Ok() && s.cra.Has(0x01) && !s.cra.Has(0x20) && !s.cra.Has(0x08)
    ensures EndClock(s, k) >= 0 && RaisedAt(s, EndClock(s, k), 0x01) && EndsOfA(s, EndClock(s, k)) == k
  {
    hide Ticks, RaisedAt, Reg.Has;
    var p := s.la + 1;
    assert k * p >= 0;
    FreeRunningA(s, EndClock(s, k));
    DivModIs(k * p, p, k, 0);
    if k > 0 {
      assert k * p - 1 == p * (k - 1) + (p - 1);
      DivModIs(k * p - 1, p, k - 1, p - 1);
    }
  }

  /** A timer B that counts the ends of a free running timer A: together they are one long counter. */
  lemma {:induction false} Cascade(s: Timers, n: nat)
    requires s.Ok() && s.cra.Has(0x01) && !s.cra.Has(0x20) && !s.cra.Has(0x08)
    requires s.crb.Has(0x01) && s.crb.Has(0x40) && !s.crb.Has(0x08)
    ensures var t := Ticks(s, n);
      && t.Ok() && t.crb == s.crb && t.lb == s.lb && t.tb == CountDown(s.tb, s.lb, EndsOfA(s, n))
    ensures RaisedAt(s, n, 0x02) <==>
            RaisedAt(s, n, 0x01) && EndsOfA(s, n) >= s.tb && (EndsOfA(s, n) - s.tb) % (s.lb + 1) == 0
  {
    hide ClockedA, ClockedB, CountsA, SerialOut, Stopped, Raise, Raises, Tick, Reg.Has, CountDown, Overs;
    Modes(s.cra, s.crb);
    StopBit(s.crb);
    FreeRunningA(s, n);
    CountStep(s.ta, s.la, Monus(n, s.starta));
    CountStep(s.tb, s.lb, EndsOfA(s, n));
    RaisesWhen(Ticks(s, n));
    if n > 0 {
      Cascade(s, n - 1);
      FreeRunningA(s, n - 1);
      TickFields(Ticks(s, n - 1));
      RaisesWhen(Ticks(s, n - 1));
      CountStep(s.ta, s.la, Monus(n - 1, s.starta));
      CountStep(s.tb, s.lb, EndsOfA(s, n - 1));
    } else {
      CountNone(s.ta, s.la);
      CountNone(s.tb, s.lb);
    }
  }

  /** The serial counter runs down by one at every end of timer A, and its last count raises flag 8. */
  lemma {:induction false} SerialRunsDown(s: Timers, n: nat)
    requires s.Ok() && s.cra.Has(0x01) && !s.cra.Has(0x20) && !s.cra.Has(0x08) && s.cra.Has(0x40)
    ensures Ticks(s, n).sdrCnt == Monus(s.sdrCnt, EndsOfA(s, n))
    ensures RaisedAt(s, n, 0x08) <==> RaisedAt(s, n, 0x01) && EndsOfA(s, n) + 1 == s.sdrCnt
  {
    hide ClockedA, ClockedB, CountsA, SerialOut, Stopped, Raise, Raises, Tick, Reg.Has, CountDown, Overs;
    Modes(s.cra, s.crb);
    FreeRunningA(s, n);
    CountStep(s.ta, s.la, Monus(n, s.starta));
    RaisesWhen(Ticks(s, n));
    if n > 0 {
      SerialRunsDown(s, n - 1);
      FreeRunningA(s, n - 1);
      TickFields(Ticks(s, n - 1));
      RaisesWhen(Ticks(s, n - 1));
      CountStep(s.ta, s.la, Monus(n - 1, s.starta));
    } else {
      CountNone(s.ta, s.la);
    }
  }

  /** The clocks at which the long counter ends: after tb + 1 ends of timer A, and then after every lb + 1. */
  function LongEnd(s: Timers, j: nat): int {
    EndClock(s, s.tb + j * (s.lb + 1))
  }

  lemma CascadeIff(s: Timers, n: nat)
    requires s.Ok() && s.cra.Has(0x01) && !s.cra.Has(0x20) && !s.cra.Has(0x08)
    requires s.crb.Has(0x01) && s.crb.Has(0x40) && !s.crb.Has(0x08)
    ensures RaisedAt(s, n, 0x02) <==> exists j: nat :: n == LongEnd(s, j)
  {
    hide Ticks, RaisedAt, Reg.Has, EndsOfA, EndClock;
    Cascade(s, n);
    EndNumber(s, n);
    var p := s.lb + 1;
    if RaisedAt(s, n, 0x02) {
      var x := EndsOfA(s, n) - s.tb;
      assert x == p * (x / p);
      assert n == LongEnd(s, x / p);
    }
    forall j: nat | n == LongEnd(s, j) ensures RaisedAt(s, n, 0x02) {
      assert j * p >= 0;
      EndClockEnds(s, s.tb + j * p);
      DivModIs(j * p, p, j, 0);
    }
  }

  /** A one-shot timer B that counts timer A ends once, after tb + 1 ends. */
  lemma {:induction false} OneShotCascade(s: Timers, n: nat)
    requires s.Ok() && s.cra.Has(0x01) && !s.cra.Has(0x20) && !s.cra.Has(0x08)
    requires s.crb.Has(0x01) && s.crb.Has(0x40) && s.crb.Has(0x08)
    ensures var t := Ticks(s, n);
      && t.Ok() && t.lb == s.lb
      && t.crb.Has(0x01) == (EndsOfA(s, n) <= s.tb) && (EndsOfA(s, n) <= s.tb ==> t.crb == s.crb)
      && t.tb == if EndsOfA(s, n) <= s.tb then s.tb - EndsOfA(s, n) else s.lb
    ensures RaisedAt(s, n, 0x02) <==> n == EndClock(s, s.tb)
  {
    hide ClockedA, ClockedB, CountsA, SerialOut, Stopped, Raise, Raises, Tick, Reg.Has, CountDown, Overs, EndClock;
    StopBit(s.crb);
    FreeRunningA(s, n);
    EndNumber(s, n);
    EndClockEnds(s, s.tb);
    CountStep(s.ta, s.la, Monus(n, s.starta));
    if n > 0 {
      OneShotCascade(s, n - 1);
      FreeRunningA(s, n - 1);
      TickFields(Ticks(s, n - 1));
      RaisesWhen(Ticks(s, n - 1));
      CountStep(s.ta, s.la, Monus(n - 1, s.starta));
      Modes(s.cra, Ticks(s, n - 1).crb);
    } else {
      CountNone(s.ta, s.la);
    }
    Modes(s.cra, Ticks(s, n).crb);
    RaisesWhen(Ticks(s, n));
  }

  lemma SerialIff(s: Timers, n: nat)
    requires s.Ok() && s.cra.Has(0x01) && !s.cra.Has(0x20) && !s.cra.Has(0x08) && s.cra.Has(0x40)
    ensures RaisedAt(s, n, 0x08) <==> s.sdrCnt > 0 && n == EndClock(s, s.sdrCnt - 1)
  {
    hide Ticks, RaisedAt, Reg.Has, EndsOfA, EndClock;
    SerialRunsDown(s, n);
    EndNumber(s, n);
    if s.sdrCnt > 0 {
      EndClockEnds(s, s.sdrCnt - 1);
    }
  }

  /** A timer A that does not count E-clocks keeps its counter and raises nothing. */
  lemma {:induction false} IdleA(s: Timers, n: nat)
    requires s.Ok() && (!s.cra.Has(0x01) || s.cra.Has(0x20))
    ensures var t := Ticks(s, n);
      t.Ok() && t.ta == s.ta && t.la == s.la && t.cra == s.cra && t.sdrCnt == s.sdrCnt
    ensures !RaisedAt(s, n, 0x01) && !RaisedAt(s, n, 0x08)
  {
    hide ClockedA, ClockedB, CountsA, SerialOut, Stopped, Raise, Raises, Tick, Reg.Has;
    Modes(s.cra, s.crb);
    if n > 0 {
      IdleA(s, n - 1);
      TickFields(Ticks(s, n - 1));
    }
    RaisesWhen(Ticks(s, n));
  }

  /** A timer B that is stopped, or counts a pin, does so too. */
  lemma {:induction false} IdleB(s: Timers, n: nat)
    requires s.Ok() && (!s.crb.Has(0x01) || (s.crb.Has(0x20) && !s.crb.Has(0x40)))
    ensures var t := Ticks(s, n); t.Ok() && t.tb == s.tb && t.lb == s.lb && t.crb == s.crb
    ensures !RaisedAt(s, n, 0x02)
  {
    hide ClockedA, ClockedB, CountsA, SerialOut, Stopped, Raise, Raises, Tick, Reg.Has;
    Modes(s.cra, s.crb);
    if n > 0 {
      IdleB(s, n - 1);
      TickFields(Ticks(s, n - 1));
    }
    RaisesWhen(Ticks(s, n));
  }

  // ---------- what the writes mean ----------

  /** Low byte, then high byte: the latch is the number they make.  Without one-shot mode only a stopped counter is
      loaded with it, and nothing else changes. */
  lemma LatchLowHigh(s: Timers, lo: Reg, hi: Reg)
    ensures var t, latch := Written(Written(s, 4, lo), 5, hi), lo.Number() + 256 * hi.Number();
      && t.la == latch
      && (!s.cra.Has(0x08) ==> t == s.(la := latch, ta := if s.cra.Has(0x01) then s.ta else latch))
    ensures var t, latch := Written(Written(s, 6, lo), 7, hi), lo.Number() + 256 * hi.Number();
      && t.lb == latch
      && (!s.crb.Has(0x08) ==> t == s.(lb := latch, tb := if s.crb.Has(0x01) then s.tb else latch))
  {
    hide Reg.Has, Reg.Set, Reg.Number;
  }

  /** High byte, then low byte: the same latch, but a stopped counter is loaded before the low byte has come. */
  lemma LatchHighLow(s: Timers, lo: Reg, hi: Reg)
    ensures var t, latch := Written(Written(s, 5, hi), 4, lo), lo.Number() + 256 * hi.Number();
      && t.la == latch
      && (!s.cra.Has(0x08) ==>
            t == s.(la := latch, ta := if s.cra.Has(0x01) then s.ta else s.la % 256 + 256 * hi.Number()))
    ensures var t, latch := Written(Written(s, 7, hi), 6, lo), lo.Number() + 256 * hi.Number();
      && t.lb == latch
      && (!s.crb.Has(0x08) ==>
            t == s.(lb := latch, tb := if s.crb.Has(0x01) then s.tb else s.lb % 256 + 256 * hi.Number()))
  {
    hide Reg.Has, Reg.Set, Reg.Number;
    HighOf(s.la % 256, hi);
    HighOf(s.lb % 256, hi);
  }

  lemma HighOf(low: nat, hi: Reg)
    requires low < 256
    ensures (low + hi.Number() * 256) / 256 * 256 == hi.Number() * 256
  {
    hide Reg.Number;
  }

  /** A stopped timer shows both bytes written to it, for as long as it stays stopped. */
  lemma ReadBack(s: Timers, lo: Reg, hi: Reg, n: nat)
    requires s.Ok()
    ensures !s.cra.Has(0x01) && !s.cra.Has(0x08) ==>
              var t := Ticks(Written(Written(s, 4, lo), 5, hi), n);
              Shown(t, 4) == lo.Number() && Shown(t, 5) == hi.Number()
    ensures !s.crb.Has(0x01) && !s.crb.Has(0x08) ==>
              var t := Ticks(Written(Written(s, 6, lo), 7, hi), n);
              Shown(t, 6) == lo.Number() && Shown(t, 7) == hi.Number()
  {
    hide Ticks, RaisedAt, Reg.Has, Reg.Number, Written, LowByte, HighByte;
    BytesOf(lo, hi);
    LatchLowHigh(s, lo, hi);
    if !s.cra.Has(0x01) && !s.cra.Has(0x08) {
      IdleA(Written(Written(s, 4, lo), 5, hi), n);
    }
    if !s.crb.Has(0x01) && !s.crb.Has(0x08) {
      IdleB(Written(Written(s, 6, lo), 7, hi), n);
    }
  }

  lemma BytesOf(lo: Reg, hi: Reg)
    ensures var x := lo.Number() + 256 * hi.Number();
      0 <= x && LowByte(x) == lo.Number() && HighByte(x) == hi.Number()
  {
    hide Reg.Number;
    var l, h := lo.Number(), hi.Number();
    DivModIs(l + 256 * h, 256, h, l);
  }

  /** A flag that is first raised by the clock after d others. */
  lemma FlagFrom(s: Timers, d: nat, n: nat, mask: bv8)
    requires s.Ok() && mask in [0x01, 0x02, 0x08] && !s.icr.Has(mask)
    requires RaisedAt(s, d, mask) && forall k: nat :: k < d ==> !RaisedAt(s, k, mask)
    ensures Ticks(s, n).icr.Has(mask) <==> n >= d + 1
  {
    hide Ticks, RaisedAt, Reg.Has;
    FlagIff(s, n, mask);
  }

  /** When a started timer A raises its flag: never before counter + delay + 1 clocks, then at once, and again every
      latch + 1 clocks if it is continuous. */
  lemma DueA(s: Timers, n: nat)
    requires s.Ok() && s.cra.Has(0x01) && !s.cra.Has(0x20)
    ensures RaisedAt(s, n, 0x01) <==>
            if s.cra.Has(0x08) then n == s.ta + s.starta
            else n >= s.ta + s.starta && (n - s.ta - s.starta) % (s.la + 1) == 0
    ensures !s.icr.Has(0x01) ==> (Ticks(s, n).icr.Has(0x01) <==> n >= s.ta + s.starta + 1)
  {
    hide Ticks, RaisedAt, Reg.Has;
    forall k: nat
      ensures RaisedAt(s, k, 0x01) <==>
              if s.cra.Has(0x08) then k == s.ta + s.starta
              else k >= s.ta + s.starta && (k - s.ta - s.starta) % (s.la + 1) == 0
    {
      if s.cra.Has(0x08) {
        OneShotA(s, k);
      } else {
        FreeRunningA(s, k);
      }
    }
    if !s.icr.Has(0x01) {
      DivModIs(0, s.la + 1, 0, 0);
      FlagFrom(s, s.ta + s.starta, n, 0x01);
    }
  }

  /** A control write: bit 4 loads this timer's counter from its own latch and is not kept, a stopped timer is started
      with a delay of 2, and nothing else changes. */
  lemma ControlA(s: Timers, val: Reg)
    ensures Written(s, 14, val) ==
            s.(cra := Reg(val.v & 0x6F),
               ta := if val.Has(0x10) then s.la else s.ta,
               starta := if val.Has(0x01) && !s.cra.Has(0x01) then 2 else s.starta)
    ensures Shown(Written(s, 14, val), 14) == Reg(val.v & 0x6F).Number()
  {
    hide Reg.Number;
  }

  lemma KeptA(val: Reg, mask: bv8)
    requires mask in [0x01, 0x08, 0x20, 0x40]
    ensures Reg(val.v & 0x6F).Has(mask) == val.Has(mask)
  {
  }

  /** Timer A set going by its control register: delay 2 when it was stopped. */
  lemma StartedByA(s: Timers, val: Reg, n: nat)
    requires s.Ok() && val.Has(0x01) && !val.Has(0x20)
    ensures var t := Written(s, 14, val);
      var from := if val.Has(0x10) then s.la else s.ta;
      var due := from + if s.cra.Has(0x01) then s.starta else 2;
      && (RaisedAt(t, n, 0x01) <==>
            if val.Has(0x08) then n == due else n >= due && (n - due) % (s.la + 1) == 0)
      && (!s.icr.Has(0x01) ==> (Ticks(t, n).icr.Has(0x01) <==> n >= due + 1))
  {
    hide Ticks, RaisedAt, Reg.Has, Written;
    ControlA(s, val);
    KeptA(val, 0x01);
    KeptA(val, 0x08);
    KeptA(val, 0x20);
    KeptA(val, 0x40);
    DueA(Written(s, 14, val), n);
  }

  /** Timer A stopped by its control register: it keeps what it has counted, or its latch if that is loaded. */
  lemma StoppedByA(s: Timers, val: Reg, n: nat)
    requires s.Ok() && !val.Has(0x01)
    ensures var t := Ticks(Written(s, 14, val), n);
      t.ta == (if val.Has(0x10) then s.la else s.ta) && t.la == s.la
    ensures !RaisedAt(Written(s, 14, val), n, 0x01)
  {
    hide Ticks, RaisedAt, Reg.Has, Written;
    ControlA(s, val);
    KeptA(val, 0x01);
    IdleA(Written(s, 14, val), n);
  }

  /** A one-shot timer A is set going by its high byte, with the full latch and a delay of 3. */
  lemma ShotA(s: Timers, hi: Reg, n: nat)
    requires s.Ok() && s.cra.Has(0x08) && !s.cra.Has(0x20)
    ensures var t, latch := Written(s, 5, hi), s.la % 256 + 256 * hi.Number();
      && t == s.(la := latch, ta := latch, starta := 3, cra := t.cra)
      && t.cra.v == s.cra.v | 0x01
      && (RaisedAt(t, n, 0x01) <==> n == latch + 3)
      && (!s.icr.Has(0x01) ==> (Ticks(t, n).icr.Has(0x01) <==> n >= latch + 4))
  {
    hide Ticks, RaisedAt, Reg.Has, Reg.Number;
    SetStart(s.cra);
    DueA(Written(s, 5, hi), n);
  }

  /** When a started timer B raises its flag: never before counter + delay + 1 clocks, then at once, and again every
      latch + 1 clocks if it is continuous. */
  lemma DueB(s: Timers, n: nat)
    requires s.Ok() && s.crb.Has(0x01) && !s.crb.Has(0x20) && !s.crb.Has(0x40)
    ensures RaisedAt(s, n, 0x02) <==>
            if s.crb.Has(0x08) then n == s.tb + s.startb
            else n >= s.tb + s.startb && (n - s.tb - s.startb) % (s.lb + 1) == 0
    ensures !s.icr.Has(0x02) ==> (Ticks(s, n).icr.Has(0x02) <==> n >= s.tb + s.startb + 1)
  {
    hide Ticks, RaisedAt, Reg.Has;
    forall k: nat
      ensures RaisedAt(s, k, 0x02) <==>
              if s.crb.Has(0x08) then k == s.tb + s.startb
              else k >= s.tb + s.startb && (k - s.tb - s.startb) % (s.lb + 1) == 0
    {
      if s.crb.Has(0x08) {
        OneShotB(s, k);
      } else {
        FreeRunningB(s, k);
      }
    }
    if !s.icr.Has(0x02) {
      DivModIs(0, s.lb + 1, 0, 0);
      FlagFrom(s, s.tb + s.startb, n, 0x02);
    }
  }

  /** A control write: bit 4 loads this timer's counter from its own latch and is not kept, a stopped timer is started
      with a delay of 2, and nothing else changes. */
  lemma ControlB(s: Timers, val: Reg)
    ensures Written(s, 15, val) ==
            s.(crb := Reg(val.v & 0xEF),
               tb := if val.Has(0x10) then s.lb else s.tb,
               startb := if val.Has(0x01) && !s.crb.Has(0x01) then 2 else s.startb)
    ensures Shown(Written(s, 15, val), 15) == Reg(val.v & 0xEF).Number()
  {
    hide Reg.Number;
  }

  lemma KeptB(val: Reg, mask: bv8)
    requires mask in [0x01, 0x08, 0x20, 0x40]
    ensures Reg(val.v & 0xEF).Has(mask) == val.Has(mask)
  {
  }

  /** Timer B set going by its control register: delay 2 when it was stopped. */
  lemma StartedByB(s: Timers, val: Reg, n: nat)
    requires s.Ok() && val.Has(0x01) && !val.Has(0x20) && !val.Has(0x40)
    ensures var t := Written(s, 15, val);
      var from := if val.Has(0x10) then s.lb else s.tb;
      var due := from + if s.crb.Has(0x01) then s.startb else 2;
      && (RaisedAt(t, n, 0x02) <==>
            if val.Has(0x08) then n == due else n >= due && (n - due) % (s.lb + 1) == 0)
      && (!s.icr.Has(0x02) ==> (Ticks(t, n).icr.Has(0x02) <==> n >= due + 1))
  {
    hide Ticks, RaisedAt, Reg.Has, Written;
    ControlB(s, val);
    KeptB(val, 0x01);
    KeptB(val, 0x08);
    KeptB(val, 0x20);
    KeptB(val, 0x40);
    DueB(Written(s, 15, val), n);
  }

  /** Timer B stopped by its control register: it keeps what it has counted, or its latch if that is loaded. */
  lemma StoppedByB(s: Timers, val: Reg, n: nat)
    requires s.Ok() && !val.Has(0x01)
    ensures var t := Ticks(Written(s, 15, val), n);
      t.tb == (if val.Has(0x10) then s.lb else s.tb) && t.lb == s.lb
    ensures !RaisedAt(Written(s, 15, val), n, 0x02)
  {
    hide Ticks, RaisedAt, Reg.Has, Written;
    ControlB(s, val);
    KeptB(val, 0x01);
    IdleB(Written(s, 15, val), n);
  }

  /** A one-shot timer B is set going by its high byte, with the full latch and a delay of 3. */
  lemma ShotB(s: Timers, hi: Reg, n: nat)
    requires s.Ok() && s.crb.Has(0x08) && !s.crb.Has(0x20) && !s.crb.Has(0x40)
    ensures var t, latch := Written(s, 7, hi), s.lb % 256 + 256 * hi.Number();
      && t == s.(lb := latch, tb := latch, startb := 3, crb := t.crb)
      && t.crb.v == s.crb.v | 0x01
      && (RaisedAt(t, n, 0x02) <==> n == latch + 3)
      && (!s.icr.Has(0x02) ==> (Ticks(t, n).icr.Has(0x02) <==> n >= latch + 4))
  {
    hide Ticks, RaisedAt, Reg.Has, Reg.Number;
    SetStart(s.crb);
    DueB(Written(s, 7, hi), n);
  }

  lemma SetStart(cr: Reg)
    ensures cr.Set(0x01).Has(0x01) && cr.Set(0x01).Has(0x08) == cr.Has(0x08)
    ensures cr.Set(0x01).Has(0x20) == cr.Has(0x20) && cr.Set(0x01).Has(0x40) == cr.Has(0x40)
  {
  }

  /** Without half bits to send no flag 8 is raised. */
  lemma {:induction false} SilentSerial(s: Timers, n: nat)
    requires s.Ok() && s.sdrCnt == 0
    ensures Ticks(s, n).Ok() && Ticks(s, n).sdrCnt == 0 && !RaisedAt(s, n, 0x08)
  {
    hide ClockedA, ClockedB, CountsA, SerialOut, Stopped, Raise, Raises, Tick, Reg.Has;
    if n > 0 {
      SilentSerial(s, n - 1);
      TickFields(Ticks(s, n - 1));
    }
    RaisesWhen(Ticks(s, n));
  }

  /** A byte written to the serial port starts sixteen half bits if timer A is going, the port is an output and nothing
      is on its way; what is on its way goes on, unless the port is an input. */
  lemma SerialWrite(s: Timers, val: Reg)
    ensures Written(s, 12, val) ==
            s.(sdrCnt := if !s.cra.Has(0x40) then 0
                         else if s.cra.Has(0x01) && s.sdrCnt == 0 then 16 else s.sdrCnt)
  {
    hide Reg.Has;
  }

  /** The sixteenth end of timer A after such a write raises flag 8, and no other clock does. */
  lemma SerialDue(s: Timers, val: Reg, n: nat)
    requires s.Ok() && s.sdrCnt == 0
    ensures !s.cra.Has(0x40) ==> !RaisedAt(Written(s, 12, val), n, 0x08)
    ensures s.cra.Has(0x40) && s.cra.Has(0x01) && !s.cra.Has(0x20) && !s.cra.Has(0x08) ==>
              && EndClock(s, 15) == s.starta + s.ta + 15 * (s.la + 1)
              && (RaisedAt(Written(s, 12, val), n, 0x08) <==> n == EndClock(s, 15))
              && (!s.icr.Has(0x08) ==> (Ticks(Written(s, 12, val), n).icr.Has(0x08) <==> n >= EndClock(s, 15) + 1))
  {
    hide Ticks, RaisedAt, Reg.Has, Written;
    var t := Written(s, 12, val);
    SerialWrite(s, val);
    if !s.cra.Has(0x40) {
      SilentSerial(t, n);
    } else if s.cra.Has(0x01) && !s.cra.Has(0x20) && !s.cra.Has(0x08) {
      forall k: nat ensures RaisedAt(t, k, 0x08) <==> k == EndClock(s, 15) {
        SerialIff(t, k);
      }
      if !s.icr.Has(0x08) {
        FlagFrom(t, EndClock(s, 15), n, 0x08);
      }
    }
  }

  /** A write to any other register leaves the timers alone. */
  lemma OtherRegisters(s: Timers, reg: nat, val: Reg)
    ensures reg !in [4, 5, 6, 7, 12, 14, 15] ==> Written(s, reg, val) == s
  {
  }

  // ---------- the same through the registers of a whole run ----------

  /** The timers of one of the two CIAs. */
  function Of(m: Machine, isA: bool): Timers {
    if isA then m.a else m.b
  }

  /** A timer A is given a latch, low byte first, and started; then c cycles pass. */
  function Interval(isA: bool, lo: Reg, hi: Reg, start: Reg, c: nat): seq<Action> {
    [Write(isA, 4, lo), Write(isA, 5, hi), Write(isA, 14, start), Pass(c, false, [])]
  }

  lemma HistoryOfFour(w: World, x0: Action, x1: Action, x2: Action, x3: Action)
    ensures History(w, [x0, x1, x2, x3]) == React(React(React(React(w, x0), x1), x2), x3)
  {
    hide React;
    assert [x0, x1, x2, x3][..3] == [x0, x1, x2] && [x0, x1, x2][..2] == [x0, x1] && [x0, x1][..1] == [x0];
    assert [x0][..0] == [];
    assert History(w, [x0]) == React(w, x0);
    assert History(w, [x0, x1]) == React(React(w, x0), x1);
    assert History(w, [x0, x1, x2]) == React(React(React(w, x0), x1), x2);
  }

  /** A stopped timer A, programmed and started: its flag is set as soon as the number written, and three clocks more,
      have passed, however far the E-clock was, and the other CIA has only aged. */
  lemma IntervalPasses(w: World, isA: bool, lo: Reg, hi: Reg, start: Reg, c: nat)
    requires w.countdown == 0 && c > 0 && w.m.phase < DIV10
    requires var s := Of(w.m, isA); s.Ok() && !s.cra.Has(0x01) && !s.cra.Has(0x08) && !s.icr.Has(0x01)
    requires start.Has(0x01) && !start.Has(0x20)
    ensures var after := History(w, Interval(isA, lo, hi, start, c)).m;
      && (Of(after, isA).icr.Has(0x01) <==> (w.m.phase + c) / 2560 >= lo.Number() + 256 * hi.Number() + 3)
      && Of(after, !isA) == Ticks(Of(w.m, !isA), (w.m.phase + c) / 2560)
  {
    hide Ticks, Reg.Has, Reg.Number, Written;
    var s := Of(w.m, isA);
    HistoryOfFour(w, Write(isA, 4, lo), Write(isA, 5, hi), Write(isA, 14, start), Pass(c, false, []));
    LatchLowHigh(s, lo, hi);
    StartedByA(Written(Written(s, 4, lo), 5, hi), start, (w.m.phase + c) / 2560);
  }

  /** Acknowledged flags of one CIA are cleared, and nothing else changes in either. */
  lemma Acknowledges(w: World, ofA: bool, bits: bv8, flag: bv8)
    requires flag in [0x01, 0x02, 0x04, 0x08, 0x10]
    ensures var t := History(w, [Acknowledge(ofA, bits)]).m;
      && (Of(t, ofA).icr.Has(flag) <==> Of(w.m, ofA).icr.Has(flag) && bits & flag == 0)
      && Of(t, ofA) == Of(w.m, ofA).(icr := Of(t, ofA).icr) && Of(t, !ofA) == Of(w.m, !ofA)
  {
    HistoryOfOne(w, Acknowledge(ofA, bits));
    ClearedFlag(Of(w.m, ofA).icr, bits, flag);
    hide Reg.Has, Reg.Clear;
  }

  lemma ClearedFlag(icr: Reg, bits: bv8, flag: bv8)
    requires flag in [0x01, 0x02, 0x04, 0x08, 0x10]
    ensures icr.Clear(bits).Has(flag) <==> icr.Has(flag) && bits & flag == 0
  {
  }

  // ---------- the computed event ----------

  lemma {:induction false} ModeKept(s: Timers, n: nat)
    requires s.Ok()
    ensures Ticks(s, n).Ok() && Ticks(s, n).crb.Has(0x40) == s.crb.Has(0x40)
  {
    hide ClockedA, ClockedB, CountsA, SerialOut, Stopped, Raise, Tick, Reg.Has;
    if n > 0 {
      ModeKept(s, n - 1);
      TickFields(Ticks(s, n - 1));
      CountingBits(Ticks(s, n - 1).crb);
    }
  }

  lemma CountingBits(cr: Reg)
    ensures Stopped(cr).Has(0x40) == cr.Has(0x40)
  {
  }

  /** No timer flag is raised before a counter that counts E-clocks has run out. */
  lemma NoneBefore(s: Timers, k: nat)
    requires s.Ok()
    ensures RaisedAt(s, k, 0x01) ==> s.RunsA() && k >= s.ta + s.starta
    ensures RaisedAt(s, k, 0x02) ==> (s.RunsB() && k >= s.tb + s.startb) || (s.RunsA() && k >= s.ta + s.starta)
  {
    hide Ticks, ClockedA, ClockedB, CountsA, SerialOut, Reg.Has, Raises;
    Modes(s.cra, s.crb);
    if s.RunsA() {
      DueA(s, k);
    } else {
      IdleA(s, k);
    }
    if s.RunsB() {
      DueB(s, k);
    } else if s.crb.Has(0x40) {
      ModeKept(s, k);
      Modes(Ticks(s, k).cra, Ticks(s, k).crb);
      RaisesWhen(Ticks(s, k));
    } else {
      IdleB(s, k);
    }
  }

  /** Some timer of the two CIAs raises its flag at this clock. */
  predicate SomeRaised(m: Machine, k: nat) {
    RaisedAt(m.a, k, 0x01) || RaisedAt(m.a, k, 0x02) || RaisedAt(m.b, k, 0x01) || RaisedAt(m.b, k, 0x02)
  }

  /** The event is neither late nor early: at its cycle an E-clock ends that raises a timer flag, and no clock before it
      raises one.  Without an event none ever does. */
  lemma EventIsDue(m: Machine, k: nat)
    requires m.a.Ok() && m.b.Ok() && m.phase < DIV10
    ensures var delay := Earliest(m.a, m.b, m.phase);
      if delay == -1 then !SomeRaised(m, k) else
      && delay > 0 && (m.phase + delay) % 2560 == 0
      && (k == (m.phase + delay) / 2560 - 1 ==> SomeRaised(m, k))
      && (k < (m.phase + delay) / 2560 - 1 ==> !SomeRaised(m, k))
  {
    hide Ticks, ClockedA, ClockedB, CountsA, SerialOut, Reg.Has, RaisedAt, Earliest;
    EarliestIsNotLate(m.a, m.b, m.phase);
    NoneBefore(m.a, k);
    NoneBefore(m.b, k);
    var delay := Earliest(m.a, m.b, m.phase);
    if delay != -1 {
      if delay == TimeA(m.a, m.phase) {
        ClockOf(m.phase, delay, m.a.ta + m.a.starta);
        EndOfA(m.a);
      } else if delay == TimeB(m.a, m.phase) {
        ClockOf(m.phase, delay, m.a.tb + m.a.startb);
        EndOfB(m.a);
      } else if delay == TimeA(m.b, m.phase) {
        ClockOf(m.phase, delay, m.b.ta + m.b.starta);
        EndOfA(m.b);
      } else {
        ClockOf(m.phase, delay, m.b.tb + m.b.startb);
        EndOfB(m.b);
      }
    }
  }

  lemma ClockOf(phase: nat, delay: nat, x: nat)
    requires phase < DIV10 && delay == DueIn(phase, x, 0)
    ensures (phase + delay) % 2560 == 0 && (phase + delay) / 2560 - 1 == x
  {
  }

  lemma EndOfA(s: Timers)
    requires s.Ok() && s.RunsA()
    ensures RaisedAt(s, s.ta + s.starta, 0x01)
  {
    hide Ticks, RaisedAt, Reg.Has, ClockedA;
    Modes(s.cra, s.crb);
    DueA(s, s.ta + s.starta);
    DivModIs(0, s.la + 1, 0, 0);
  }

  lemma EndOfB(s: Timers)
    requires s.Ok() && s.RunsB()
    ensures RaisedAt(s, s.tb + s.startb, 0x02)
  {
    hide Ticks, RaisedAt, Reg.Has, ClockedB;
    Modes(s.cra, s.crb);
    DueB(s, s.tb + s.startb);
    DivModIs(0, s.lb + 1, 0, 0);
  }

  // ---------- counted cycles ----------

  /** Actions that only let cycles pass or be owed. */
  predicate OnlyTime(x: Action) {
    x.Owe? || x.Vsync? || x.Read? || (x.Pass? && !x.held)
  }

  function CyclesOf(x: Action): nat {
    if x.Pass? || x.Owe? then x.cycles else 0
  }

  function Total(xs: seq<Action>): nat {
    if |xs| == 0 then 0 else Total(xs[..|xs| - 1]) + CyclesOf(xs[|xs| - 1])
  }

  /** Cycles are never lost and never counted twice: what has not passed is what the countdown has swallowed. */
  lemma {:induction false} CyclesKept(w: World, xs: seq<Action>) returns (passed: nat)
    requires w.m.phase < DIV10 && forall x :: x in xs ==> OnlyTime(x)
    ensures History(w, xs) == World(Advance(w.m, passed), w.countdown - Total(xs) + passed)
    ensures passed == 0 || History(w, xs).countdown <= 0
  {
    hide Advance;
    passed := 0;
    if |xs| == 0 {
      AdvanceNothing(w.m);
    } else {
      var before, x := xs[..|xs| - 1], xs[|xs| - 1];
      passed := CyclesKept(w, before);
      assert OnlyTime(x);
      if x.Pass? && History(w, before).countdown < x.cycles {
        var more := x.cycles - History(w, before).countdown;
        AdvanceAdd(w.m, passed, more);
        passed := passed + more;
      }
    }
  }

  /** So whenever time has just passed, the stepped machines have aged by all cycles beyond the countdown. */
  lemma AllCyclesPass(w: World, xs: seq<Action>)
    requires w.m.phase < DIV10 && forall x :: x in xs ==> OnlyTime(x)
    requires |xs| > 0 && xs[|xs| - 1].Pass?
    ensures History(w, xs) == World(Advance(w.m, Monus(Total(xs), w.countdown)), Monus(w.countdown, Total(xs)))
  {
    hide Advance, Total;
    var passed := CyclesKept(w, xs);
    assert OnlyTime(xs[|xs| - 1]);
    assert History(w, xs).countdown >= 0;
  }

  lemma HistoryOfOne(w: World, x: Action)
    ensures History(w, [x]) == React(w, x)
  {
    hide React;
    assert [x][..0] == [];
  }

  lemma HistoryOfTwo(w: World, x: Action, y: Action)
    ensures History(w, [x, y]) == React(React(w, x), y)
  {
    hide React;
    HistoryOfOne(w, x);
    assert [x, y][..1] == [x];
  }

  /** At the last line of a frame nothing passes when the countdown is used up; 25000 cycles more are waited. */
  lemma HeldBack(w: World, c: nat)
    requires w.countdown < c
    ensures History(w, [Pass(c, true, [])]) == World(w.m, 25000 * 512)
  {
    hide Advance;
    HistoryOfOne(w, Pass(c, true, []));
  }

  /** Once the countdown has been ended early every cycle passes at once, with translated code one more. */
  lemma SkipEnds(w: World, jit: bool, c: nat)
    requires w.countdown >= 0 && c > 0
    ensures History(w, [Skip(jit), Pass(c, false, [])]) == World(Advance(w.m, if jit then c + 1 else c), 0)
  {
    hide Advance;
    HistoryOfTwo(w, Skip(jit), Pass(c, false, []));
  }
}
