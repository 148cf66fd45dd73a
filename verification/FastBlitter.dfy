/** The fast blitter: two nested loops over the words of a blit. */
module FastBlitter {
  import opened BlitterWords
  import opened BlitterFill
  import opened Blit
  import opened FastBlit

  const MAX_WORDS := 2048

  /** The data registers. */
  datatype Info = Info(adat: Word, cdat: Word, ddat: Word, bhold: Word, zero: bool)

  /** What the mask table holds while a blit runs. */
  function MaskEntry(cfg: Config, i: nat): Word {
    And(if i == 0 then cfg.afwm else Word(0xFFFF), if i == cfg.h - 1 then cfg.alwm else Word(0xFFFF))
  }

  lemma MaskedByEntry(cfg: Config, i: nat, w: Word)
    ensures And(w, MaskEntry(cfg, i)) == Mask(cfg, i, w)
  {
    var f, l := if i == 0 then cfg.afwm else Word(0xFFFF), if i == cfg.h - 1 then cfg.alwm else Word(0xFFFF);
    assert w.v & (f.v & l.v) == (w.v & f.v) & l.v;
    assert w.v & 0xFFFF == w.v && w.v & f.v & 0xFFFF == w.v & f.v;
  }

  lemma AndOnes(w: Word)
    ensures And(Word(0xFFFF), w) == w && And(w, Word(0xFFFF)) == w
  {
  }

  /** At the start of every row the fill carry is the preset one. */
  lemma RowStartsFresh(cfg: Config, s: Latches, k: nat)
    requires cfg.Valid() && Fresh(cfg, s)
    requires Col(k, cfg.h) == 0
    ensures LoopRun(cfg, s, k).fc == cfg.fci
  {
    hide Read, Write, Mask, Result, Col, Serving, Fetch, LoopWord, Target;
    if k > 0 {
      NextWord(k - 1, cfg.h);
      Looped(cfg, LoopRun(cfg, s, k - 1), k - 1);
    }
  }

  /** The local source pointers after k words and so many modulos. */
  ghost predicate Placed(cfg: Config, aptr: nat, bptr: nat, cptr: nat, k: nat, rows: nat)
    requires cfg.h > 0
  {
    aptr == Cursor(cfg, cfg.a, k, rows) && bptr == Cursor(cfg, cfg.b, k, rows) && cptr == Cursor(cfg, cfg.c, k, rows)
  }

  class Blitter {
    const chip: array<Word>
    const masktable: array<Word>
    const filltable: array2<Filled>
    var info: Info
    var pt: Pointers

    ghost predicate Idle(cfg: Config)
      reads this, chip, masktable, filltable
    {
      && cfg.Valid() && chip.Length > 0 && masktable.Length == MAX_WORDS && chip != masktable
      && Filling(filltable)
      && (forall i :: 0 <= i < MAX_WORDS ==> masktable[i] == Word(0xFFFF))
    }

    /** The mask table is set up for a blit. */
    ghost predicate Masked(cfg: Config)
      reads masktable
    {
      && cfg.Valid() && masktable.Length == MAX_WORDS
      && (forall i: nat :: i < cfg.h ==> masktable[i] == MaskEntry(cfg, i))
      && (forall i :: 0 <= i < MAX_WORDS && i != 0 && i != cfg.h - 1 ==> masktable[i] == Word(0xFFFF))
    }

    /** The pointer registers hold the start of the blit. */
    ghost predicate Loaded(cfg: Config)
      reads this
    {
      && pt == Pointers(cfg.a.ptr, cfg.b.ptr, cfg.c.ptr, cfg.d.ptr)
      && pt.a < 0x1_0000_0000 && pt.b < 0x1_0000_0000 && pt.c < 0x1_0000_0000 && pt.d < 0x1_0000_0000
    }

    /** The state a blit starts from. */
    ghost function Start(cfg: Config): (s: Latches)
      reads this, chip
      requires chip.Length > 0
      ensures Fresh(cfg, s)
    {
      Latches(chip[..], info.adat, info.cdat, info.bhold, Word(0), Word(0), cfg.fci, true, info.ddat)
    }

    /** Memory, data registers and zero flag are those of the blit as the loops perform it; the pointer registers have
        moved to their final places. */
    ghost predicate Finished(cfg: Config, s: Latches)
      reads this, chip
      requires cfg.Valid() && |s.mem| > 0
    {
      var w := Performed(cfg, s);
      && chip[..] == w.mem && info == Info(w.adat, w.cdat, w.last, w.bhold, w.zero)
      && pt == Pointers(FinalPtr(cfg, cfg.a), FinalPtr(cfg, cfg.b), FinalPtr(cfg, cfg.c), FinalPtr(cfg, cfg.d))
    }

    /** k words are done, the last of them waiting to be stored. */
    ghost predicate At(cfg: Config, w: Latches, k: nat, bhold: Long, preva: Word, prevb: Word, dstp: nat, dodst: bool)
      reads this, chip
      requires cfg.h > 0
    {
      && chip[..] == w.mem && info.adat == w.adat && info.cdat == w.cdat && info.ddat == w.last && info.zero == w.zero
      && Low(bhold) == w.bhold && preva == w.preva && prevb == w.prevb
      && dodst == (Target(cfg, k) >= 0) && (dodst ==> dstp == Addr(cfg, cfg.d, Target(cfg, k)))
    }

    function ChipmemWget(addr: nat): (w: Word)
      reads this, chip
      requires chip.Length > 0
      ensures w == Read(chip[..], addr)
    {
      chip[Cell(chip.Length, addr)]
    }

    method ChipmemWput(addr: nat, w: Word)
      requires chip.Length > 0
      modifies chip
      ensures chip[..] == Write(old(chip[..]), addr, w)
    {
      chip[Cell(chip.Length, addr)] := w;
    }

    /** The first half of the inner loop: read the sources and shift. */
    method ReadSources(cfg: Config, i: nat, aptr0: nat, bptr0: nat, cptr0: nat, bhold0: Long, preva0: Word,
            prevb0: Word, ghost w: Latches, ghost k: nat)
      returns (aptr: nat, bptr: nat, cptr: nat, bhold: Long, preva: Word, prevb: Word, ahold: Long)
      requires cfg.Valid() && chip.Length > 0
      requires i < cfg.h && Masked(cfg)
      requires chip[..] == w.mem && info.adat == w.adat && info.cdat == w.cdat
      requires Low(bhold0) == w.bhold && preva0 == w.preva && prevb0 == w.prevb
      requires Placed(cfg, aptr0, bptr0, cptr0, k, Row(k, cfg.h))
      modifies this`info
      ensures |w.mem| > 0
      ensures var f := Fetch(Serving(cfg, k), w, k);
        && info == old(info).(adat := f.adat, cdat := f.cdat)
        && Low(bhold) == f.bhold && prevb == f.prevb
        && preva == Mask(cfg, i, f.adat) && ahold == Hold(cfg.desc, w.preva, preva, cfg.ashift)
      ensures Placed(cfg, aptr, bptr, cptr, k + 1, Row(k, cfg.h))
    {
      hide Hold, Low, Mask, MaskEntry, Addr, Row, And, Read, ChipmemWget, Wrap, Mult, Fetch, Cursor, Served;
      Fetched(Serving(cfg, k), w, k);
      ghost var rows := Row(k, cfg.h);
      SameAddr(cfg, k);
      CursorStep(cfg, cfg.a, k, rows);
      CursorStep(cfg, cfg.b, k, rows);
      CursorStep(cfg, cfg.c, k, rows);
      aptr, bptr, cptr, bhold, prevb := aptr0, bptr0, cptr0, bhold0, prevb0;
      var adat;
      if aptr != 0 {
        adat := ChipmemWget(aptr);
        info := info.(adat := adat);
        aptr := Wrap(aptr + Mult(cfg.desc) * 2);
      } else {
        adat := info.adat;
      }
      MaskedByEntry(cfg, i, adat);
      adat := And(adat, masktable[i]);
      ahold := Hold(cfg.desc, preva0, adat, cfg.ashift);
      preva := adat;
      if bptr != 0 {
        var bdat := ChipmemWget(bptr);
        bptr := Wrap(bptr + Mult(cfg.desc) * 2);
        bhold := Hold(cfg.desc, prevb, bdat, cfg.bshift);
        prevb := bdat;
      }
      if cptr != 0 {
        info := info.(cdat := ChipmemWget(cptr));
        cptr := Wrap(cptr + Mult(cfg.desc) * 2);
      }
    }

    /** The second half: store the previous result, combine and fill. */
    method Produce(cfg: Config, ahold: Long, bhold: Long, fc0: bool, dstp: nat, dodst: bool, ghost w: Latches,
            ghost k: nat)
      returns (fc: bool)
      requires cfg.Valid() && |w.mem| > 0 && Filling(filltable)
      requires var f := Fetch(Serving(cfg, k), w, k);
        && chip[..] == w.mem && info.adat == f.adat && info.cdat == f.cdat && info.ddat == w.last && info.zero == w.zero
        && Low(bhold) == f.bhold && ahold == Hold(cfg.desc, w.preva, Mask(cfg, Col(k, cfg.h), f.adat), cfg.ashift)
      requires dodst == (Target(cfg, k) >= 0) && (dodst ==> dstp == Addr(cfg, cfg.d, Target(cfg, k)))
      requires fc0 == w.fc
      modifies this`info, chip
      ensures var n := LoopWord(cfg, w, k);
        && chip[..] == n.mem && info.adat == n.adat && info.cdat == n.cdat && info.ddat == n.last && info.zero == n.zero
        && (Col(k, cfg.h) + 1 < cfg.h ==> fc == n.fc)
    {
      hide Hold, Low, Wide, BlitFunc, FillWord, Mask, Col, Addr, Write, LoopWord, Fetch, EntryOk, Served, Target;
      Looped(cfg, w, k);
      if dodst {
        ChipmemWput(dstp, info.ddat);
      }
      BlitFuncLow(ahold, bhold, Wide(info.cdat), cfg.mt);
      var ddat := Low(BlitFunc(ahold, bhold, Wide(info.cdat), cfg.mt));
      fc := fc0;
      if cfg.fill {
        var r := FillByTable(filltable, ddat, cfg.ife, fc);
        ddat, fc := r.word, r.carry;
      }
      info := info.(ddat := ddat);
      if ddat != Word(0) {
        info := info.(zero := false);
      }
    }

    /** The body of the inner loop. */
    method Turn(cfg: Config, i: nat, aptr0: nat, bptr0: nat, cptr0: nat, dptr0: nat, bhold0: Long, preva0: Word,
            prevb0: Word, dstp0: nat, dodst0: bool, fc0: bool, ghost s: Latches, ghost k: nat, ghost j: nat)
      returns (aptr: nat, bptr: nat, cptr: nat, dptr: nat, bhold: Long, preva: Word, prevb: Word, dstp: nat,
        dodst: bool, fc: bool)
      requires cfg.Valid() && |s.mem| > 0 && Masked(cfg) && Filling(filltable) && chip != masktable
      requires i < cfg.h && j < cfg.v && k == WordAt(cfg.h, j, i)
      requires At(cfg, LoopRun(cfg, s, k), k, bhold0, preva0, prevb0, dstp0, dodst0) && fc0 == LoopRun(cfg, s, k).fc
      requires Placed(cfg, aptr0, bptr0, cptr0, k, j) && dptr0 == Cursor(cfg, cfg.d, k, j)
      modifies this`info, chip
      ensures At(cfg, LoopRun(cfg, s, k + 1), k + 1, bhold, preva, prevb, dstp, dodst)
      ensures Placed(cfg, aptr, bptr, cptr, k + 1, j) && dptr == Cursor(cfg, cfg.d, k + 1, j)
      ensures i + 1 < cfg.h ==> fc == LoopRun(cfg, s, k + 1).fc
    {
      hide Low, Mask, Addr, Row, Col, Fetch, LoopWord, Filling, Masked, Served, Cursor, Wrap, Mult, Serving;
      SplitWord(k, cfg.h, i, j);
      ghost var w := LoopRun(cfg, s, k);
      Looped(cfg, w, k);
      var ahold;
      aptr, bptr, cptr, bhold, preva, prevb, ahold :=
        ReadSources(cfg, i, aptr0, bptr0, cptr0, bhold0, preva0, prevb0, w, k);
      fc := Produce(cfg, ahold, bhold, fc0, dstp0, dodst0, w, k);
      CursorStep(cfg, cfg.d, k, j);
      dodst, dstp, dptr := dodst0, dstp0, dptr0;
      if dptr != 0 {
        dodst, dstp, dptr := true, dptr, Wrap(dptr + Mult(cfg.desc) * 2);
      }
    }

    /** The mask table for one blit. */
    method SetMasks(cfg: Config)
      requires cfg.Valid() && masktable.Length == MAX_WORDS
      requires forall i :: 0 <= i < MAX_WORDS ==> masktable[i] == Word(0xFFFF)
      modifies masktable
      ensures Masked(cfg)
    {
      hide And;
      AndOnes(cfg.afwm);
      AndOnes(cfg.alwm);
      AndOnes(Word(0xFFFF));
      masktable[0] := cfg.afwm;
      masktable[cfg.h - 1] := And(masktable[cfg.h - 1], cfg.alwm);
    }

    method ClearMasks(cfg: Config)
      requires cfg.Valid() && masktable.Length == MAX_WORDS
      requires Masked(cfg)
      modifies masktable
      ensures forall i :: 0 <= i < MAX_WORDS ==> masktable[i] == Word(0xFFFF)
    {
      masktable[0] := Word(0xFFFF);
      masktable[cfg.h - 1] := Word(0xFFFF);
    }

    /** Take a channel's pointer and move the register to its final place. */
    method TakePointer(cfg: Config, ch: Channel, reg: nat) returns (ptr: nat, reg': nat)
      requires cfg.Valid() && reg == ch.ptr && ch.ptr < 0x1_0000_0000
      ensures ptr == Cursor(cfg, ch, 0, 0) && reg' == FinalPtr(cfg, ch)
    {
      CursorStart(cfg, ch);
      if ch.on {
        ptr, reg' := reg, Wrap(reg + Mult(cfg.desc) * ((cfg.h * 2 + ch.modulo) * cfg.v));
      } else {
        ptr, reg' := 0, reg;
      }
    }

    /** Add a row's modulo to a pointer that is on. */
    method AddModulo(cfg: Config, ch: Channel, ptr: nat, ghost j: nat) returns (ptr': nat)
      requires cfg.Valid() && ptr == Cursor(cfg, ch, WordAt(cfg.h, j + 1, 0), j)
      ensures ptr' == Cursor(cfg, ch, WordAt(cfg.h, j + 1, 0), j + 1)
    {
      hide Cursor, WordAt;
      CursorRow(cfg, ch, j);
      ptr' := ptr;
      if ptr != 0 {
        ptr' := Wrap(ptr + Mult(cfg.desc) * ch.modulo);
      }
    }

    /** After the loops: store the last result and keep the shifted B. */
    method StoreLast(cfg: Config, bhold: Long, ghost preva: Word, ghost prevb: Word, dstp: nat, dodst: bool,
            ghost s: Latches)
      requires cfg.Valid() && |s.mem| > 0
      requires At(cfg, LoopRun(cfg, s, cfg.Words()), cfg.Words(), bhold, preva, prevb, dstp, dodst)
      modifies this`info, chip
      ensures var w := Performed(cfg, s); chip[..] == w.mem && info == Info(w.adat, w.cdat, w.last, w.bhold, w.zero)
    {
      hide Low, Write, Addr, LoopRun, Target;
      if dodst {
        ChipmemWput(dstp, info.ddat);
      }
      info := info.(bhold := Low(bhold));
    }

    /** blitter_dofast and, for a descending blit, blitter_dofast_desc. */
    method DoFast(cfg: Config)
      requires Idle(cfg) && Loaded(cfg)
      modifies this, chip, masktable
      ensures Idle(cfg) && Finished(cfg, old(Start(cfg)))
    {
      hide Low, Wide, PtrAt, Row, Col, And, LoopWord, Filling, Masked, FinalPtr, Write, Addr, Served, Cursor, Performed,
        WordAt;
      ghost var s := Start(cfg);
      var aptr, bptr, cptr, dptr;
      var a, b, c, d;
      aptr, a := TakePointer(cfg, cfg.a, pt.a);
      bptr, b := TakePointer(cfg, cfg.b, pt.b);
      cptr, c := TakePointer(cfg, cfg.c, pt.c);
      dptr, d := TakePointer(cfg, cfg.d, pt.d);
      pt := Pointers(a, b, c, d);
      SetMasks(cfg);
      LowWide(info.bhold);
      info := info.(zero := true);
      var bhold, preva, prevb, dodst := Wide(info.bhold), Word(0), Word(0), false;
      var dstp: nat := 0;
      ghost var k: nat := 0;
      WordSteps(cfg.h, cfg.v, 0);
      for j := 0 to cfg.v
        invariant k == WordAt(cfg.h, j, 0)
        invariant At(cfg, LoopRun(cfg, s, k), k, bhold, preva, prevb, dstp, dodst)
        invariant Placed(cfg, aptr, bptr, cptr, k, j) && dptr == Cursor(cfg, cfg.d, k, j)
        invariant Masked(cfg) && Filling(filltable) && pt == Pointers(a, b, c, d)
      {
        var fc := cfg.fci;
        WordSteps(cfg.h, cfg.v, j);
        RowStart(cfg.h, j);
        RowStartsFresh(cfg, s, k);
        for i := 0 to cfg.h
          invariant k == WordAt(cfg.h, j, i)
          invariant At(cfg, LoopRun(cfg, s, k), k, bhold, preva, prevb, dstp, dodst)
          invariant Placed(cfg, aptr, bptr, cptr, k, j) && dptr == Cursor(cfg, cfg.d, k, j)
          invariant i < cfg.h ==> fc == LoopRun(cfg, s, k).fc
          invariant Masked(cfg) && Filling(filltable) && pt == Pointers(a, b, c, d)
          {
          aptr, bptr, cptr, dptr, bhold, preva, prevb, dstp, dodst, fc :=
            Turn(cfg, i, aptr, bptr, cptr, dptr, bhold, preva, prevb, dstp, dodst, fc, s, k, j);
          k := k + 1;
        }
        aptr := AddModulo(cfg, cfg.a, aptr, j);
        bptr := AddModulo(cfg, cfg.b, bptr, j);
        cptr := AddModulo(cfg, cfg.c, cptr, j);
        dptr := AddModulo(cfg, cfg.d, dptr, j);
      }
      StoreLast(cfg, bhold, preva, prevb, dstp, dodst, s);
      ClearMasks(cfg);
    }
  }
}
