/** The interrupt control register of a CIA: flags are raised at any time, handed to the readable snapshot at once or
    by a delayed ICRA event, and cleared by a read.  Everything here is about the time between resets. */
module CiaInterrupts {
  import opened Register

  /** ciaaicr, ciaaicr_reg, ciaaimask, the number of ICRA events under way, whether the event table has ever been too
      full to take one, and how often an interrupt has been requested (INTREQ_0). */
  datatype Regs = Regs(icr: Reg, reg: Reg, mask: Reg, outstanding: nat, dropped: bool, requests: nat)

  /** How RethinkICRA hands over: by an event in cycle-exact mode, at once otherwise; with no room in the event table
      the event is lost.  When an event for the same moment is already under way its handler runs at once and it stays
      under way: that is Scheduled, followed by Deliver. */
  datatype Way = Scheduled | Dropped | AtOnce

  datatype Event = Raise(bits: bv8, way: Way) | Deliver | Read(way: Way) | SetMask(val: bv8)

  /** The flag sources; bit 7 is the summary bit. */
  predicate IsFlag(f: bv8) {
    f == 0x01 || f == 0x02 || f == 0x04 || f == 0x08 || f == 0x10
  }

  predicate Legal(e: Event) {
    e.Raise? ==> e.bits & 0x80 == 0
  }

  /** ICRA. */
  function Handed(s: Regs): Regs {
    var t := if s.mask.Has(s.icr.v) then s.(icr := s.icr.Set(0x80), requests := s.requests + 1) else s;
    t.(reg := t.reg.Set(t.icr.v))
  }

  /** RethinkICRA: something happens whenever a flag is pending. */
  function Rethought(s: Regs, way: Way): Regs {
    if !s.icr.Any() then s else
      match way
      case Scheduled => s.(outstanding := s.outstanding + 1)
      case Dropped => s.(dropped := true)
      case AtOnce => Handed(s)
  }

  /** setclr on the mask. */
  function Masked(mask: Reg, val: bv8): Reg {
    if Reg(val).Has(0x80) then mask.Set(val & 0x7F) else mask.Clear(val)
  }

  function Step(s: Regs, e: Event): Regs {
    match e
    case Raise(bits, way) => Rethought(s.(icr := s.icr.Set(bits)), way)
    case Deliver => if s.outstanding == 0 then s else Handed(s.(outstanding := s.outstanding - 1))
    case Read(way) => Rethought(s.(icr := s.icr.Clear(s.reg.v), reg := Reg(0)), way)
    case SetMask(val) => s.(mask := Masked(s.mask, val))
  }

  /** The registers after a history that starts at a reset. */
  function Trace(es: seq<Event>): Regs {
    if |es| == 0 then Regs(Reg(0), Reg(0), Reg(0), 0, false, 0) else Step(Trace(es[..|es| - 1]), es[|es| - 1])
  }

  /** What a read at position j returns. */
  function Returned(es: seq<Event>, j: nat): Reg
    requires j < |es|
  {
    Trace(es[..j]).reg
  }

  /** A hand-over at once is the scheduled one followed by its event, for a raise and for a read. */
  lemma AtOnceIsDelivered(s: Regs, bits: bv8)
    ensures var t := Step(s, Raise(bits, Scheduled));
      Step(s, Raise(bits, AtOnce)) == if t.icr.Any() then Step(t, Deliver) else t
    ensures var t := Step(s, Read(Scheduled));
      Step(s, Read(AtOnce)) == if t.icr.Any() then Step(t, Deliver) else t
  {
    hide Reg.Any, Reg.Set, Reg.Clear, Reg.Has;
  }

  // ---------- invariants of every history ----------

  ghost predicate Ok(s: Regs) {
    && !s.reg.Clear(s.icr.v).Any()                       // the snapshot is part of what is pending
    && (s.icr.Has(0x80) ==> s.reg.Has(0x80))             // the summary bit is never left behind
    && (s.icr.Clear(s.reg.v).Any() ==> s.outstanding > 0 || s.dropped) // whatever is not yet readable is on its way
  }

  lemma StepOk(s: Regs, e: Event)
    requires Ok(s) && Legal(e)
    ensures Ok(Step(s, e))
  {
    hide Reg.Has, Reg.Any, Reg.Set, Reg.Clear, Handed;
    match e
    case Raise(bits, way) =>
      RaiseOk(s.icr, s.reg, bits);
      HandOver(s.(icr := s.icr.Set(bits)));
    case Deliver =>
      if s.outstanding > 0 {
        HandOver(s.(outstanding := s.outstanding - 1));
      }
    case Read(way) =>
      ReadOk(s.icr, s.reg);
      HandOver(s.(icr := s.icr.Clear(s.reg.v), reg := Reg(0)));
    case SetMask(_) =>
  }

  /** After a hand-over everything pending is readable. */
  lemma HandOver(s: Regs)
    ensures !s.reg.Clear(s.icr.v).Any() ==> Ok(Handed(s)) && !Handed(s).icr.Clear(Handed(s).reg.v).Any()
  {
    hide Reg.Has, Reg.Any, Reg.Set, Reg.Clear;
    if !s.reg.Clear(s.icr.v).Any() {
      HandedOk(s.icr, s.reg);
      SetSummary(s.icr);
      SummaryFirst(s.icr, s.reg);
      HandedOk(s.icr.Set(0x80), s.reg.Set(0x80));
    }
  }

  lemma RaiseOk(icr: Reg, reg: Reg, bits: bv8)
    requires !reg.Clear(icr.v).Any() && Reg(bits).v & 0x80 == 0
    ensures !reg.Clear(icr.Set(bits).v).Any() && icr.Set(bits).Has(0x80) == icr.Has(0x80)
    ensures !icr.Set(bits).Any() ==> !icr.Set(bits).Clear(reg.v).Any()
  {
  }

  lemma HandedOk(icr: Reg, reg: Reg)
    requires !reg.Clear(icr.v).Any()
    ensures !reg.Set(icr.v).Clear(icr.v).Any() && !icr.Clear(reg.Set(icr.v).v).Any()
    ensures icr.Has(0x80) ==> reg.Set(icr.v).Has(0x80)
  {
  }

  lemma SetSummary(icr: Reg)
    ensures icr.Set(0x80).Has(0x80)
  {
  }

  /** Setting the summary bit in the snapshot first makes no difference to a hand-over that sets it. */
  lemma SummaryFirst(icr: Reg, reg: Reg)
    ensures !reg.Clear(icr.v).Any() ==> !reg.Set(0x80).Clear(icr.Set(0x80).v).Any()
    ensures reg.Set(0x80).Set(icr.Set(0x80).v) == reg.Set(icr.Set(0x80).v)
  {
  }

  lemma ReadOk(icr: Reg, reg: Reg)
    requires icr.Has(0x80) ==> reg.Has(0x80)
    ensures !icr.Clear(reg.v).Has(0x80) && !Reg(0).Clear(icr.Clear(reg.v).v).Any()
    ensures !icr.Clear(reg.v).Any() ==> !icr.Clear(reg.v).Clear(0).Any()
  {
  }

  /** Over any interleaving, in both modes: the snapshot stays part of the pending flags, the summary bit stays readable
      while it is set, and a flag that cannot be read yet has an event on its way unless one was lost. */
  lemma {:induction false} TraceOk(es: seq<Event>)
    requires forall k :: 0 <= k < |es| ==> Legal(es[k])
    ensures Ok(Trace(es))
  {
    hide Ok, Step;
    if |es| == 0 {
      StartOk();
    } else {
      TraceOk(es[..|es| - 1]);
      StepOk(Trace(es[..|es| - 1]), es[|es| - 1]);
    }
  }

  lemma StartOk()
    ensures Ok(Regs(Reg(0), Reg(0), Reg(0), 0, false, 0))
  {
  }

  predicate Drops(e: Event) {
    (e.Raise? || e.Read?) && e.way == Dropped
  }

  /** As long as the event table has room, every flag that cannot be read yet has an event on its way. */
  lemma {:induction false} OnItsWay(es: seq<Event>)
    requires forall k :: 0 <= k < |es| ==> Legal(es[k]) && !Drops(es[k])
    ensures !Trace(es).dropped
    ensures Trace(es).icr.Clear(Trace(es).reg.v).Any() ==> Trace(es).outstanding > 0
  {
    hide Reg.Has, Reg.Any, Reg.Set, Reg.Clear;
    TraceOk(es);
    if |es| > 0 {
      OnItsWay(es[..|es| - 1]);
    }
  }

  /** When every hand-over is at once, nothing is ever under way, and every pending flag can be read. */
  lemma {:induction false} ReadableAtOnce(es: seq<Event>)
    requires forall k :: 0 <= k < |es| ==> Legal(es[k]) && (es[k].Raise? || es[k].Read? ==> es[k].way == AtOnce)
    ensures Trace(es).outstanding == 0 && !Trace(es).dropped && !Trace(es).icr.Clear(Trace(es).reg.v).Any()
  {
    hide Reg.Has, Reg.Any, Reg.Set, Reg.Clear;
    TraceOk(es);
    if |es| > 0 {
      ReadableAtOnce(es[..|es| - 1]);
    }
  }

  // ---------- one flag at a time ----------

  /** The life of a flag: raised, then readable, then idle again. */
  datatype Life = Idle | Raised | Readable

  function LifeOf(s: Regs, f: bv8): Life {
    if s.reg.Has(f) then Readable else if s.icr.Has(f) then Raised else Idle
  }

  predicate Picks(bits: bv8, f: bv8) {
    bits & f != 0
  }

  /** What each event means for one flag. */
  function LifeStep(life: Life, e: Event, f: bv8, delivered: bool): Life {
    match e
    case Raise(bits, way) => HandedLife(if Picks(bits, f) && life == Idle then Raised else life, way)
    case Deliver => if delivered && life == Raised then Readable else life
    case Read(way) => HandedLife(if life == Readable then Idle else life, way)
    case SetMask(_) => life
  }

  function HandedLife(life: Life, way: Way): Life {
    if way == AtOnce && life == Raised then Readable else life
  }

  lemma RaiseLife(s: Regs, bits: bv8, way: Way, f: bv8)
    requires IsFlag(f)
    ensures LifeOf(Step(s, Raise(bits, way)), f) == LifeStep(LifeOf(s, f), Raise(bits, way), f, s.outstanding > 0)
  {
    hide Handed, Picks, IsFlag, Reg.Has, Reg.Any, Reg.Set, Reg.Clear;
    RaiseFlag(s.icr, bits, f);
    HandLife(s.(icr := s.icr.Set(bits)), f);
    NothingPending(s.icr.Set(bits), f);
  }

  lemma ReadLife(s: Regs, way: Way, f: bv8)
    requires Ok(s) && IsFlag(f)
    ensures LifeOf(Step(s, Read(way)), f) == LifeStep(LifeOf(s, f), Read(way), f, s.outstanding > 0)
  {
    hide Handed, IsFlag, Reg.Has, Reg.Set, Reg.Clear;
    ReadFlag(s.icr, s.reg, f);
    HandLife(s.(icr := s.icr.Clear(s.reg.v), reg := Reg(0)), f);
    NothingPending(s.icr.Clear(s.reg.v), f);
  }

  /** The register machine treats every flag as that automaton: raising never disturbs another flag, a read ends
      exactly the flags it returns, and a flag raised since the last hand-over outlives a read. */
  lemma FlagFollowsLife(s: Regs, e: Event, f: bv8)
    requires Ok(s) && IsFlag(f)
    ensures LifeOf(Step(s, e), f) == LifeStep(LifeOf(s, f), e, f, s.outstanding > 0)
  {
    hide Handed, Reg.Has, Reg.Any, Reg.Set, Reg.Clear;
    match e
    case Raise(bits, way) => RaiseLife(s, bits, way, f);
    case Deliver => HandLife(s.(outstanding := if s.outstanding > 0 then s.outstanding - 1 else 0), f);
    case Read(way) => ReadLife(s, way, f);
    case SetMask(_) =>
  }

  /** A hand-over makes a raised flag readable. */
  lemma HandLife(s: Regs, f: bv8)
    requires IsFlag(f)
    ensures LifeOf(Handed(s), f) == if LifeOf(s, f) == Raised then Readable else LifeOf(s, f)
  {
    HandFlag(s.icr.v, s.reg.v, f);
  }

  lemma NothingPending(icr: Reg, f: bv8)
    ensures !icr.Any() ==> !icr.Has(f)
  {
  }

  lemma RaiseFlag(icr: Reg, bits: bv8, f: bv8)
    requires IsFlag(f)
    ensures icr.Set(bits).Has(f) <==> icr.Has(f) || Picks(bits, f)
  {
  }

  lemma HandFlag(icr: bv8, reg: bv8, f: bv8)
    requires IsFlag(f)
    ensures (reg | icr) & f != 0 <==> reg & f != 0 || icr & f != 0
    ensures (reg | (icr | 0x80)) & f != 0 <==> reg & f != 0 || icr & f != 0
    ensures (icr | 0x80) & f != 0 <==> icr & f != 0
  {
  }

  lemma ReadFlag(icr: Reg, reg: Reg, f: bv8)
    requires IsFlag(f) && !reg.Clear(icr.v).Any()
    ensures icr.Clear(reg.v).Has(f) <==> icr.Has(f) && !reg.Has(f)
    ensures !Reg(0).Has(f) && (reg.Has(f) ==> icr.Has(f))
  {
  }

  predicate Raises(e: Event, f: bv8) {
    e.Raise? && Picks(e.bits, f)
  }

  /** The read at position j reports flag f. */
  predicate Reports(es: seq<Event>, j: nat, f: bv8)
    requires j < |es|
  {
    es[j].Read? && Returned(es, j).Has(f)
  }

  ghost predicate ReportedAfter(es: seq<Event>, i: nat, f: bv8) {
    exists j: nat :: i < j < |es| && Reports(es, j, f)
  }

  lemma PrefixTrace(es: seq<Event>, j: nat)
    requires j < |es|
    ensures forall f: bv8 :: j < |es| - 1 ==> Reports(es[..|es| - 1], j, f) == Reports(es, j, f)
  {
    if j < |es| - 1 {
      assert es[..|es| - 1][..j] == es[..j];
    }
  }

  /** Never lost: a raised flag is still pending at the end unless a later read has reported it. */
  lemma {:induction false} NeverLost(es: seq<Event>, i: nat, f: bv8)
    requires IsFlag(f) && i < |es| && Raises(es[i], f)
    requires forall k :: 0 <= k < |es| ==> Legal(es[k])
    ensures LifeOf(Trace(es), f) != Idle || ReportedAfter(es, i, f)
    decreases |es|
  {
    hide Ok, Step, IsFlag;
    var before, n := es[..|es| - 1], |es| - 1;
    TraceOk(before);
    FlagFollowsLife(Trace(before), es[n], f);
    if i < n {
      NeverLost(before, i, f);
      if ReportedAfter(before, i, f) {
        var j: nat :| i < j < |before| && Reports(before, j, f);
        PrefixTrace(es, j);
        assert Reports(es, j, f);
      } else if LifeOf(Trace(es), f) == Idle {
        assert Reports(es, n, f);
      }
    }
  }

  /** Never reported twice: between two reports of a flag it has been raised again. */
  lemma {:induction false} NeverTwice(es: seq<Event>, i: nat, f: bv8)
    requires IsFlag(f) && i < |es| && Reports(es, i, f)
    requires forall k :: 0 <= k < |es| ==> Legal(es[k])
    ensures LifeOf(Trace(es), f) != Idle ==> exists k :: i < k < |es| && Raises(es[k], f)
    ensures forall j: nat :: i < j < |es| && Reports(es, j, f) ==> exists k :: i < k < j && Raises(es[k], f)
    decreases |es|
  {
    hide Ok, Step, IsFlag;
    var before, n := es[..|es| - 1], |es| - 1;
    TraceOk(before);
    FlagFollowsLife(Trace(before), es[n], f);
    if i < n {
      PrefixTrace(es, i);
      NeverTwice(before, i, f);
      forall j: nat | i < j < |es| && Reports(es, j, f) ensures exists k :: i < k < j && Raises(es[k], f) {
        PrefixTrace(es, j);
        if j < n {
          var k :| i < k < j && Raises(before[k], f);
          assert Raises(es[k], f);
        } else {
          var k :| i < k < |before| && Raises(before[k], f);
          assert Raises(es[k], f);
        }
      }
      if LifeOf(Trace(es), f) != Idle {
        if LifeOf(Trace(before), f) == Idle {
          assert Raises(es[n], f);
        } else {
          var k :| i < k < |before| && Raises(before[k], f);
          assert Raises(es[k], f);
        }
      }
    }
  }

  /** Only what was raised is reported: some event before the read raised the flag. */
  lemma {:induction false} OnlyRaised(es: seq<Event>, f: bv8)
    requires IsFlag(f) && forall k :: 0 <= k < |es| ==> Legal(es[k])
    ensures LifeOf(Trace(es), f) != Idle ==> exists k :: 0 <= k < |es| && Raises(es[k], f)
    decreases |es|
  {
    hide Ok, Step, IsFlag;
    if |es| > 0 {
      var before, n := es[..|es| - 1], |es| - 1;
      TraceOk(before);
      FlagFollowsLife(Trace(before), es[n], f);
      OnlyRaised(before, f);
      if LifeOf(Trace(es), f) != Idle && LifeOf(Trace(before), f) != Idle {
        var k :| 0 <= k < |before| && Raises(before[k], f);
        assert Raises(es[k], f);
      } else if LifeOf(Trace(es), f) != Idle {
        assert Raises(es[n], f);
      }
    }
  }

  // ---------- the mask, the summary bit and the interrupt ----------

  /** A mask write with bit 7 set enables the sources it names, one without disables them; the others stay. */
  lemma MaskBit(mask: Reg, val: bv8, f: bv8)
    requires f in [0x01, 0x02, 0x04, 0x08, 0x10, 0x20, 0x40]
    ensures Masked(mask, val).Has(f) <==>
            if Picks(val, 0x80) then mask.Has(f) || Picks(val, f) else mask.Has(f) && !Picks(val, f)
  {
  }

  lemma MaskTop(mask: Reg, val: bv8)
    ensures !mask.Has(0x80) ==> !Masked(mask, val).Has(0x80)
  {
  }

  /** Some pending source is enabled. */
  predicate Enabled(mask: Reg, icr: Reg) {
    (mask.Has(0x01) && icr.Has(0x01)) || (mask.Has(0x02) && icr.Has(0x02)) || (mask.Has(0x04) && icr.Has(0x04))
    || (mask.Has(0x08) && icr.Has(0x08)) || (mask.Has(0x10) && icr.Has(0x10)) || (mask.Has(0x20) && icr.Has(0x20))
    || (mask.Has(0x40) && icr.Has(0x40))
  }

  /** What is pending when an event comes to its hand-over. */
  function Pending(s: Regs, e: Event): Reg {
    match e
    case Raise(bits, _) => s.icr.Set(bits)
    case Read(_) => s.icr.Clear(s.reg.v)
    case _ => s.icr
  }

  /** The event hands over: a raise or a read that does so at once, or an ICRA event that was under way. */
  predicate HandsOver(s: Regs, e: Event) {
    match e
    case Raise(_, way) => way == AtOnce && Pending(s, e).Any()
    case Read(way) => way == AtOnce && Pending(s, e).Any()
    case Deliver => s.outstanding > 0
    case SetMask(_) => false
  }

  lemma SharedBits(mask: Reg, icr: Reg)
    requires !mask.Has(0x80)
    ensures mask.Has(icr.v) <==> Enabled(mask, icr)
  {
  }

  lemma SummaryOf(icr: Reg, reg: Reg)
    ensures reg.Set(icr.v).Has(0x80) <==> reg.Has(0x80) || icr.Has(0x80)
    ensures reg.Set(icr.Set(0x80).v).Has(0x80)
  {
  }

  lemma TopOfRaise(icr: Reg, reg: Reg, bits: bv8)
    ensures bits & 0x80 == 0 ==> icr.Set(bits).Has(0x80) == icr.Has(0x80)
    ensures !Reg(0).Has(0x80)
  {
  }

  /** A hand-over makes the summary bit readable, and asks for an interrupt, if and only if an enabled source is
      pending. */
  lemma HandedSummary(s: Regs)
    requires !s.mask.Has(0x80) && (s.icr.Has(0x80) ==> s.reg.Has(0x80))
    ensures Handed(s).reg.Has(0x80) <==> s.reg.Has(0x80) || Enabled(s.mask, s.icr)
    ensures Handed(s).requests == s.requests + if Enabled(s.mask, s.icr) then 1 else 0
    ensures Handed(s).mask == s.mask
  {
    hide Reg.Has, Reg.Any, Reg.Set, Reg.Clear, Enabled;
    SharedBits(s.mask, s.icr);
    SummaryOf(s.icr, s.reg);
  }

  /** The summary bit and the interrupt requests follow the hand-overs, whatever way they come. */
  lemma SummaryFollows(s: Regs, e: Event)
    requires Ok(s) && Legal(e) && !s.mask.Has(0x80)
    ensures var t, now := Step(s, e), HandsOver(s, e) && Enabled(s.mask, Pending(s, e));
      && (t.reg.Has(0x80) <==> (s.reg.Has(0x80) && !e.Read?) || now)
      && t.requests == s.requests + (if now then 1 else 0)
      && !t.mask.Has(0x80)
  {
    hide Reg.Has, Reg.Any, Reg.Set, Reg.Clear, Handed, Enabled, Masked;
    match e
    case Raise(bits, _) =>
      TopOfRaise(s.icr, s.reg, bits);
      HandedSummary(s.(icr := s.icr.Set(bits)));
    case Deliver =>
      if s.outstanding > 0 {
        HandedSummary(s.(outstanding := s.outstanding - 1));
      }
    case Read(_) =>
      ReadOk(s.icr, s.reg);
      TopOfRaise(s.icr, s.reg, 0);
      HandedSummary(s.(icr := s.icr.Clear(s.reg.v), reg := Reg(0)));
    case SetMask(val) =>
      MaskTop(s.mask, val);
  }

  /** The event at position j of a history asks for an interrupt. */
  ghost predicate Asks(es: seq<Event>, j: nat)
    requires j < |es|
  {
    var s := Trace(es[..j]);
    HandsOver(s, es[j]) && Enabled(s.mask, Pending(s, es[j]))
  }

  ghost function Asked(es: seq<Event>): nat {
    if |es| == 0 then 0 else Asked(es[..|es| - 1]) + if Asks(es, |es| - 1) then 1 else 0
  }

  lemma PrefixAsks(es: seq<Event>, j: nat)
    requires j < |es| - 1
    ensures Asks(es[..|es| - 1], j) == Asks(es, j)
  {
    assert es[..|es| - 1][..j] == es[..j];
  }

  ghost predicate AskedSinceRead(es: seq<Event>) {
    exists j: nat :: j < |es| && Asks(es, j) && forall k :: j < k < |es| ==> !es[k].Read?
  }

  /** In every history an interrupt is requested exactly by the hand-overs that find an enabled source pending, and the
      summary bit can be read if and only if there has been one since the last read. */
  lemma {:induction false} SummaryIff(es: seq<Event>)
    requires forall k :: 0 <= k < |es| ==> Legal(es[k])
    ensures Trace(es).reg.Has(0x80) <==> AskedSinceRead(es)
    ensures Trace(es).requests == Asked(es) && !Trace(es).mask.Has(0x80)
    decreases |es|
  {
    hide Ok, Step, Reg.Has, Enabled, HandsOver, Pending;
    if |es| == 0 {
      NoSummary();
    } else {
      var before, n := es[..|es| - 1], |es| - 1;
      TraceOk(before);
      SummaryIff(before);
      SummaryFollows(Trace(before), es[n]);
      var s := Trace(before);
      assert Asks(es, n) <==> HandsOver(s, es[n]) && Enabled(s.mask, Pending(s, es[n]));
      if AskedSinceRead(before) && !es[n].Read? {
        var j: nat :| j < n && Asks(before, j) && forall k :: j < k < n ==> !before[k].Read?;
        PrefixAsks(es, j);
        assert Asks(es, j) && forall k :: j < k < |es| ==> !es[k].Read?;
      }
      if AskedSinceRead(es) && !Asks(es, n) {
        var j: nat :| j < |es| && Asks(es, j) && forall k :: j < k < |es| ==> !es[k].Read?;
        PrefixAsks(es, j);
        assert !es[n].Read?;
        assert forall k :: j < k < n ==> !before[k].Read?;
        assert AskedSinceRead(before);
      }
    }
  }

  lemma NoSummary()
    ensures !Reg(0).Has(0x80)
  {
  }

  /** Outside cycle-exact mode raising an enabled source asks for an interrupt there and then. */
  lemma AskedAtOnce(s: Regs, bits: bv8, f: bv8)
    requires Ok(s) && bits & 0x80 == 0 && !s.mask.Has(0x80) && IsFlag(f) && Picks(bits, f) && s.mask.Has(f)
    ensures Step(s, Raise(bits, AtOnce)).requests == s.requests + 1
    ensures Step(s, Raise(bits, AtOnce)).reg.Has(0x80)
  {
    SummaryFollows(s, Raise(bits, AtOnce));
    RaiseFlag(s.icr, bits, f);
    hide Step, Reg.Set;
  }

  // ---------- the registers ----------

  /** The snapshots that the reads of a history return. */
  function Reads(es: seq<Event>): seq<Reg> {
    if |es| == 0 then [] else
      var n := |es| - 1;
      Reads(es[..n]) + if es[n].Read? then [Returned(es, n)] else []
  }

  /** A CIA in this mode hands over in this way. */
  predicate Possible(exact: bool, e: Event) {
    e.Raise? || e.Read? ==> (e.way == AtOnce <==> !exact)
  }

  class Interrupts {
    var icr: Reg
    var icrReg: Reg
    var imask: Reg
    var outstanding: nat
    ghost var dropped: bool
    ghost var requests: nat
    /** currprefs.cpu_cycle_exact. */
    const exact: bool

    ghost function State(): Regs
      reads this
    {
      Regs(icr, icrReg, imask, outstanding, dropped, requests)
    }

    constructor (cycleExact: bool)
      ensures State() == Trace([]) && exact == cycleExact
    {
      icr, icrReg, imask, outstanding, dropped := Reg(0), Reg(0), Reg(0), 0, false;
      requests, exact := 0, cycleExact;
    }

    /** ICRA. */
    method Icra()
      modifies this`icr, this`icrReg, this`requests
      ensures State() == Handed(old(State()))
    {
      if imask.Has(icr.v) {
        icr := icr.Set(0x80);
        requests := requests + 1;
      }
      icrReg := icrReg.Set(icr.v);
    }

    /** RethinkICRA: at once outside cycle-exact mode, else by an event.  `full` tells whether the event table is. */
    method Rethink(full: bool) returns (ghost way: Way)
      modifies this`icr, this`icrReg, this`outstanding, this`dropped, this`requests
      ensures way == if !exact then AtOnce else if full then Dropped else Scheduled
      ensures State() == Rethought(old(State()), way)
    {
      way := if !exact then AtOnce else if full then Dropped else Scheduled;
      if icr.Any() {
        if exact {
          if full {
            dropped := true;
          } else {
            outstanding := outstanding + 1;
          }
        } else {
          Icra();
        }
      }
    }

    /** A source raises flags (CIA_update, the alarm, the index pulse, the acknowledge line, the keyboard). */
    method RaiseFlags(bits: bv8, full: bool) returns (ghost way: Way)
      modifies this`icr, this`icrReg, this`outstanding, this`dropped, this`requests
      ensures way == if !exact then AtOnce else if full then Dropped else Scheduled
      ensures State() == Step(old(State()), Raise(bits, way))
    {
      icr := icr.Set(bits);
      way := Rethink(full);
    }

    /** A scheduled ICRA event fires. */
    method Fire()
      requires outstanding > 0
      modifies this`icr, this`icrReg, this`outstanding, this`requests
      ensures State() == Step(old(State()), Deliver)
    {
      outstanding := outstanding - 1;
      Icra();
    }

    /** ReadCIAA, register 13. */
    method ReadIcr(full: bool) returns (tmp: Reg, ghost way: Way)
      modifies this`icr, this`icrReg, this`outstanding, this`dropped, this`requests
      ensures way == if !exact then AtOnce else if full then Dropped else Scheduled
      ensures tmp == old(State()).reg && State() == Step(old(State()), Read(way))
    {
      tmp := icrReg;
      icr := icr.Clear(icrReg.v);
      icrReg := Reg(0);
      way := Rethink(full);
    }

    /** WriteCIAA, register 13. */
    method WriteMask(val: bv8)
      modifies this`imask
      ensures State() == Step(old(State()), SetMask(val))
    {
      if Reg(val).Has(0x80) {
        imask := imask.Set(val & 0x7F);
      } else {
        imask := imask.Clear(val);
      }
    }

    /** Any history after a reset, in either mode: the registers are those of the history, and the reads return what it
        says; so the laws about histories are laws about this object. */
    method Run(es: seq<Event>) returns (seen: seq<Reg>)
      requires State() == Trace([]) && forall k :: 0 <= k < |es| ==> Possible(exact, es[k])
      modifies this
      ensures State() == Trace(es) && seen == Reads(es)
    {
      hide Step;
      seen := [];
      for n := 0 to |es|
        invariant State() == Trace(es[..n]) && seen == Reads(es[..n])
      {
        assert es[..n + 1][..n] == es[..n];
        match es[n] {
          case Raise(bits, way) =>
            var done := RaiseFlags(bits, way == Dropped);
          case Deliver =>
            NoEvent(State());
            if outstanding > 0 {
              Fire();
            }
          case Read(way) =>
            var tmp, done := ReadIcr(way == Dropped);
            seen := seen + [tmp];
          case SetMask(val) =>
            WriteMask(val);
        }
      }
      assert es[..|es|] == es;
    }
  }

  lemma NoEvent(s: Regs)
    ensures s.outstanding == 0 ==> Step(s, Deliver) == s
  {
  }
}
