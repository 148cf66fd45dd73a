/** The line engine of the blitter: Bresenham steps on a word pointer and a bit position. */
module BlitterLine {
  import opened BlitterWords
  import opened BlitterDiagrams
  import Blit

  /** The registers of a line that do not change while it is drawn.  xMajor, majorDown and minorDown are bits 4, 2 and 3
      of BLTCON1: which axis moves at every step, and which way the two axes move. */
  datatype Line = Line(
    dx: nat, dy: nat, xMajor: bool, majorDown: bool, minorDown: bool, single: bool, useC: bool,
    cmod: int, amod: int, bmod: int, a: Word, afwm: Word, b: Word, mt: bv8, length: nat)
  {
    /** The usual set-up: dx steps along the longer axis, at most 8191 of them. */
    ghost predicate Valid() {
      1 <= dx <= 8191 && dy <= dx && amod == 4 * (dy - dx) && bmod == 4 * dy && length >= 1
    }
  }

  /** What drawing changes besides the position. */
  datatype Canvas = Canvas(mem: seq<Word>, cdat: Word, ddat: Word, zero: bool)

  datatype Pixel = Pixel(x: int, y: int)

  // ---------- the ideal line ----------

  /** The integer nearest to n * dy / dx, halves rounded up. */
  function Nearest(l: Line, n: nat): nat
    requires l.dx > 0
  {
    (2 * n * l.dy + l.dx) / (2 * l.dx)
  }

  function Toward(down: bool, n: int): int {
    if down then -n else n
  }

  /** Pixel n of the line that starts at (0, 0). */
  function PixelAt(l: Line, n: nat): Pixel
    requires l.dx > 0
  {
    var major, minor := Toward(l.majorDown, n), Toward(l.minorDown, Nearest(l, n));
    if l.xMajor then Pixel(major, minor) else Pixel(minor, major)
  }

  /** What makes it the nearest: the error is less than half a pixel, or exactly half below. */
  lemma NearestIff(l: Line, n: nat, m: int)
    requires l.dx > 0
    ensures m == Nearest(l, n) <==> 0 <= 2 * (n * l.dy) - 2 * (l.dx * m) + l.dx < 2 * l.dx
  {
    var t, d := 2 * n * l.dy + l.dx, 2 * l.dx;
    var q, r := t / d, t % d;
    assert t == d * q + r && 2 * n * l.dy == 2 * (n * l.dy);
    assert d * m == 2 * (l.dx * m);
    assert (q - m) * d == d * q - d * m;
    Blit.Times(q - m, d);
  }

  lemma NextProducts(n: int, m: int, dx: int, dy: int)
    ensures (n + 1) * dy == n * dy + dy && dx * (m + 1) == dx * m + dx
  {
  }

  /** Two pixels in a row are neighbours: one step along the longer axis, none or one along the other. */
  lemma NearestSteps(l: Line, n: nat)
    requires l.dx > 0 && l.dy <= l.dx
    ensures Nearest(l, n) <= Nearest(l, n + 1) <= Nearest(l, n) + 1
  {
    hide Nearest;
    var m := Nearest(l, n);
    NearestIff(l, n, m);
    NextProducts(n, m, l.dx, l.dy);
    var next := if 2 * ((n + 1) * l.dy) - 2 * (l.dx * m) + l.dx < 2 * l.dx then m else m + 1;
    NearestIff(l, n + 1, next);
  }

  // ---------- the accumulator ----------

  /** The decision value before step n. */
  function Error(l: Line, n: nat): int
    requires l.dx > 0
  {
    4 * l.dy - 2 * l.dx + 4 * (n * l.dy) - 4 * (l.dx * Nearest(l, n))
  }

  /** It stays within sixteen bits, and its sign says whether the next step also moves along the shorter axis. */
  lemma ErrorStep(l: Line, n: nat)
    requires l.Valid()
    ensures 4 * l.dy - 4 * l.dx <= Error(l, n) < 4 * l.dy
    ensures Nearest(l, n + 1) == Nearest(l, n) + if Error(l, n) >= 0 then 1 else 0
    ensures Error(l, n + 1) == Error(l, n) + if Error(l, n) >= 0 then l.amod else l.bmod
  {
    hide Nearest;
    var m, e := Nearest(l, n), Error(l, n);
    NearestIff(l, n, m);
    NextProducts(n, m, l.dx, l.dy);
    NearestIff(l, n + 1, if e >= 0 then m + 1 else m);
  }

  lemma ErrorStart(l: Line)
    requires l.dx > 0
    ensures Nearest(l, 0) == 0 && Error(l, 0) == 4 * l.dy - 2 * l.dx
  {
    NearestIff(l, 0, 0);
  }

  /** The value of the low sixteen bits as a signed number. */
  function Signed16(x: int): int {
    var low := x % 0x10000;
    if low >= 0x8000 then low - 0x10000 else low
  }

  lemma SignedIff(x: int, e: int)
    requires -0x8000 <= e < 0x8000
    ensures Signed16(x) == e <==> x % 0x10000 == e % 0x10000
  {
  }

  lemma WrapLow(x: int)
    ensures Blit.Wrap(x) % 0x10000 == x % 0x10000
  {
  }

  lemma SumLow(x: int, y: int, d: int)
    requires x % 0x10000 == y % 0x10000
    ensures (x + d) % 0x10000 == (y + d) % 0x10000
  {
  }

  /** Adding in 32 bits and looking at the low sixteen is exact as long as the sum fits. */
  lemma AddExact(apt: nat, e: int, d: int)
    requires Signed16(apt) == e && -0x8000 <= e + d < 0x8000 && -0x8000 <= d < 0x8000
    ensures Signed16(Blit.Wrap(apt + Signed16(d))) == e + d
  {
    hide Signed16, Blit.Wrap;
    SignedRange(apt);
    SignedIff(d, d);
    SignedIff(apt, e);
    SumLow(apt, e, d);
    WrapLow(apt + d);
    SignedIff(Blit.Wrap(apt + d), e + d);
  }

  lemma SignedRange(x: int)
    ensures -0x8000 <= Signed16(x) < 0x8000
  {
  }

  // ---------- positions ----------

  /** The word that holds a pixel, counted from the word and bit the line starts at. */
  function Address(l: Line, cpt: nat, shift: nat, p: Pixel): nat {
    Blit.Wrap(cpt + p.y * l.cmod + 2 * ((shift + p.x) / 16))
  }

  function BitOf(shift: nat, p: Pixel): nat {
    (shift + p.x) % 16
  }

  lemma RightOf(l: Line, cpt: nat, shift: nat, p: Pixel)
    ensures var q := p.(x := p.x + 1); var wraps := BitOf(shift, p) + 1 == 16;
      && BitOf(shift, q) == (if wraps then 0 else BitOf(shift, p) + 1)
      && Address(l, cpt, shift, q) ==
         if wraps then Blit.Wrap(Address(l, cpt, shift, p) + 2) else Address(l, cpt, shift, p)
  {
    hide Blit.Wrap;
    Blit.WrapAdd(cpt + p.y * l.cmod + 2 * ((shift + p.x) / 16), 2);
  }

  lemma LeftOf(l: Line, cpt: nat, shift: nat, p: Pixel)
    ensures var q := p.(x := p.x - 1); var wraps := BitOf(shift, p) == 0;
      && BitOf(shift, q) == (if wraps then 15 else BitOf(shift, p) - 1)
      && Address(l, cpt, shift, q) ==
         if wraps then Blit.Wrap(Address(l, cpt, shift, p) - 2) else Address(l, cpt, shift, p)
  {
    hide Blit.Wrap;
    Blit.WrapAdd(cpt + p.y * l.cmod + 2 * ((shift + p.x) / 16), -2);
  }

  /** One row on, or back. */
  lemma RowsApart(l: Line, cpt: nat, shift: nat, p: Pixel, up: int)
    requires up == 1 || up == -1
    ensures var q := p.(y := p.y + up);
      && BitOf(shift, q) == BitOf(shift, p)
      && Address(l, cpt, shift, q) == Blit.Wrap(Address(l, cpt, shift, p) + up * l.cmod)
  {
    hide Blit.Wrap;
    assert (p.y + up) * l.cmod == p.y * l.cmod + up * l.cmod;
    Blit.WrapAdd(cpt + p.y * l.cmod + 2 * ((shift + p.x) / 16), up * l.cmod);
  }

  // ---------- one-dot mode ----------

  predicate NewRow(l: Line, n: nat)
    requires l.dx > 0
  {
    n == 0 || PixelAt(l, n).y != PixelAt(l, n - 1).y
  }

  /** Whether pixel n is drawn: in one-dot mode only when it is on another row than the one before. */
  predicate Drawn(l: Line, n: nat)
    requires l.dx > 0
  {
    !l.single || NewRow(l, n)
  }

  /** The line never goes back along y. */
  lemma {:induction false} RowsAdvance(l: Line, i: nat, j: nat)
    requires l.Valid() && i <= j
    ensures l.xMajor ==> Nearest(l, i) <= Nearest(l, j)
    decreases j - i
  {
    hide Nearest;
    if i < j {
      NearestSteps(l, i);
      RowsAdvance(l, i + 1, j);
    }
  }

  /** In one-dot mode no two drawn pixels share a row. */
  lemma OneDotPerRow(l: Line, i: nat, j: nat)
    requires l.Valid() && l.single && i < j && Drawn(l, i) && Drawn(l, j)
    ensures PixelAt(l, i).y != PixelAt(l, j).y
  {
    hide Nearest;
    RowsAdvance(l, i, j - 1);
    RowsAdvance(l, j - 1, j);
  }

  /** And every row the line visits has a drawn pixel. */
  lemma {:induction false} EveryRowDrawn(l: Line, n: nat) returns (k: nat)
    requires l.Valid()
    ensures k <= n && Drawn(l, k) && PixelAt(l, k).y == PixelAt(l, n).y
  {
    if Drawn(l, n) {
      k := n;
    } else {
      k := EveryRowDrawn(l, n - 1);
    }
  }

  // ---------- drawing ----------

  function ShiftedRight(w: Word, n: nat): Word
    requires n < 16
  {
    Low(Right(Wide(w), n))
  }

  function RotatedLeft(w: Word): Word {
    Word((w.v << 1) | (w.v >> 15))
  }

  /** The texture register after n steps. */
  function Texture(l: Line, n: nat): Word {
    if n == 0 then l.b else RotatedLeft(Texture(l, n - 1))
  }

  function Solid(w: Word): Word {
    if w.v & 1 != 0 then Word(0xFFFF) else Word(0)
  }

  /** The word that is stored for a pixel. */
  function Dot(l: Line, shift: nat, texture: Word, cdat: Word): Word
    requires shift < 16
  {
    Low(BlitFunc(Wide(ShiftedRight(And(l.a, l.afwm), shift)), Wide(Solid(texture)), Wide(cdat), l.mt))
  }

  /** Where a line starts: word and bit of its first pixel, and the address its first word is stored at. */
  datatype Origin = Origin(cpt: nat, shift: nat, dpt: nat)

  /** Pixel n: read its word, combine, and store it if the pixel is drawn. */
  function Plot(l: Line, o: Origin, c: Canvas, n: nat): Canvas
    requires l.dx > 0 && |c.mem| > 0
  {
    var p := PixelAt(l, n);
    var at := Address(l, o.cpt, o.shift, p);
    var cdat := if l.useC then Blit.Read(c.mem, at) else c.cdat;
    var ddat := Dot(l, BitOf(o.shift, p), Texture(l, n), cdat);
    var mem := if Drawn(l, n) && l.useC then Blit.Write(c.mem, if n == 0 then o.dpt else at, ddat) else c.mem;
    Canvas(mem, cdat, ddat, c.zero && !(Drawn(l, n) && ddat != Word(0)))
  }

  lemma PlotFields(l: Line, o: Origin, c: Canvas, n: nat)
    requires l.dx > 0 && |c.mem| > 0
    ensures var r := Plot(l, o, c, n); var at := Address(l, o.cpt, o.shift, PixelAt(l, n));
      && r.cdat == (if l.useC then Blit.Read(c.mem, at) else c.cdat)
      && r.ddat == Dot(l, BitOf(o.shift, PixelAt(l, n)), Texture(l, n), r.cdat)
      && r.mem == (if Drawn(l, n) && l.useC then Blit.Write(c.mem, if n == 0 then o.dpt else at, r.ddat) else c.mem)
      && r.zero == (c.zero && !(Drawn(l, n) && r.ddat != Word(0)))
  {
    hide PixelAt, Dot, Drawn, Address, Blit.Read, Blit.Write, BitOf;
  }

  /** The first n pixels. */
  function Plotted(l: Line, o: Origin, c: Canvas, n: nat): (r: Canvas)
    requires l.dx > 0 && |c.mem| > 0
    ensures |r.mem| == |c.mem|
  {
    if n == 0 then c else Plot(l, o, Plotted(l, o, c, n - 1), n - 1)
  }

  lemma BitRange(shift: nat, p: Pixel)
    ensures BitOf(shift, p) < 16
  {
  }

  lemma Origin0(l: Line, o: Origin)
    requires l.dx > 0 && o.cpt < 0x1_0000_0000 && o.shift < 16
    ensures PixelAt(l, 0) == Pixel(0, 0)
    ensures Address(l, o.cpt, o.shift, Pixel(0, 0)) == o.cpt && BitOf(o.shift, Pixel(0, 0)) == o.shift
  {
    ErrorStart(l);
  }

  /** Where the cycle exact engine stands: before the first cycle, at position p of pixel n, closing, or done. */
  datatype Place = Startup | Main(n: nat, p: nat) | Closing | Done

  /** Usable bus cycles still needed. */
  function Cost(l: Line, place: Place, cyc: int): int {
    match place
    case Startup => 4 * l.length + 3 - cyc
    case Main(_, _) => 4 * l.length + 3 - cyc
    case Closing => 3 - cyc
    case Done => 0
  }

  lemma NextPlotted(l: Line, o: Origin, c: Canvas, n: nat)
    requires l.dx > 0 && |c.mem| > 0
    ensures Plotted(l, o, c, n + 1) == Plot(l, o, Plotted(l, o, c, n), n)
  {
  }

  lemma NothingPlotted(l: Line, o: Origin, c: Canvas)
    requires l.dx > 0 && |c.mem| > 0
    ensures Plotted(l, o, c, 0) == c
  {
  }

  lemma LineEntry(n: nat, p: nat)
    requires p < 4
    ensures ChannelState(LINE, 4 * n + p) == [0, 3, 5, 4][p]
  {
  }

  class Blitter {
    const chip: array<Word>
    var cdat: Word
    var ddat: Word
    var zero: bool
    var apt: nat
    var cpt: nat
    var dpt: nat
    var shift: nat
    var texture: Word
    var sign: bool
    var onedot: nat
    var linepixel: bool
    var ddat1use: bool
    var vsize: nat
    var cyc: int
    var wait: bool
    var closing: bool
    var busy: bool

    /** Word pointer and bit position denote the pixel. */
    ghost predicate AtPixel(l: Line, o: Origin, p: Pixel)
      reads this`cpt, this`shift
    {
      cpt == Address(l, o.cpt, o.shift, p) && shift == BitOf(o.shift, p)
    }

    method IncX(ghost l: Line, ghost o: Origin, ghost p: Pixel)
      requires AtPixel(l, o, p)
      modifies this`cpt, this`shift
      ensures AtPixel(l, o, p.(x := p.x + 1))
    {
      hide Address, Blit.Wrap;
      RightOf(l, o.cpt, o.shift, p);
      shift := shift + 1;
      if shift == 16 {
        shift := 0;
        cpt := Blit.Wrap(cpt + 2);
      }
    }

    method DecX(ghost l: Line, ghost o: Origin, ghost p: Pixel)
      requires AtPixel(l, o, p)
      modifies this`cpt, this`shift
      ensures AtPixel(l, o, p.(x := p.x - 1))
    {
      hide Address, Blit.Wrap;
      LeftOf(l, o.cpt, o.shift, p);
      if shift == 0 {
        shift := 15;
        cpt := Blit.Wrap(cpt - 2);
      } else {
        shift := shift - 1;
      }
    }

    method DecY(l: Line, ghost o: Origin, ghost p: Pixel)
      requires AtPixel(l, o, p)
      modifies this`cpt, this`onedot
      ensures AtPixel(l, o, p.(y := p.y - 1)) && onedot == 0
    {
      hide Address, Blit.Wrap;
      RowsApart(l, o.cpt, o.shift, p, -1);
      cpt := Blit.Wrap(cpt - l.cmod);
      onedot := 0;
    }

    method IncY(l: Line, ghost o: Origin, ghost p: Pixel)
      requires AtPixel(l, o, p)
      modifies this`cpt, this`onedot
      ensures AtPixel(l, o, p.(y := p.y + 1)) && onedot == 0
    {
      hide Address, Blit.Wrap;
      RowsApart(l, o.cpt, o.shift, p, 1);
      cpt := Blit.Wrap(cpt + l.cmod);
      onedot := 0;
    }

    /** blitter_line: combine, and decide whether the pixel is drawn. */
    method Combine(l: Line)
      requires shift < 16
      modifies this`ddat, this`linepixel, this`onedot
      ensures ddat == Dot(l, shift, texture, cdat) && linepixel == (!l.single || old(onedot) == 0)
        && onedot == old(onedot) + 1
    {
      hide Low, BlitFunc, Wide, And, ShiftedRight;
      var ahold := ShiftedRight(And(l.a, l.afwm), shift);
      var bhold := if texture.v & 1 != 0 then Word(0xFFFF) else Word(0);
      linepixel := !l.single || (l.single && onedot == 0);
      ddat := Low(BlitFunc(Wide(ahold), Wide(bhold), Wide(cdat), l.mt));
      onedot := onedot + 1;
    }

    /** blitter_line_proc, with channel A enabled: one Bresenham step takes the machine from pixel n to pixel n + 1. */
    method LineProc(l: Line, ghost o: Origin, ghost n: nat)
      requires l.Valid() && AtPixel(l, o, PixelAt(l, n)) && Signed16(apt) == Error(l, n) && sign == (Error(l, n) < 0)
      modifies this`apt, this`cpt, this`shift, this`onedot, this`sign
      ensures AtPixel(l, o, PixelAt(l, n + 1)) && Signed16(apt) == Error(l, n + 1) && sign == (Error(l, n + 1) < 0)
      ensures onedot == if NewRow(l, n + 1) then 0 else old(onedot)
    {
      hide Address, BitOf, Nearest, Error, Signed16, Blit.Wrap;
      ghost var p := PixelAt(l, n);
      ErrorStep(l, n);
      ErrorStep(l, n + 1);
      if sign {
        AddExact(apt, Error(l, n), l.bmod);
        apt := Blit.Wrap(apt + Signed16(l.bmod));
      } else {
        AddExact(apt, Error(l, n), l.amod);
        apt := Blit.Wrap(apt + Signed16(l.amod));
      }
      if !sign {
        if l.xMajor {
          if l.minorDown {
            DecY(l, o, p);
          } else {
            IncY(l, o, p);
          }
        } else {
          if l.minorDown {
            DecX(l, o, p);
          } else {
            IncX(l, o, p);
          }
        }
        p := if l.xMajor then p.(y := p.y + Toward(l.minorDown, 1)) else p.(x := p.x + Toward(l.minorDown, 1));
      }
      if l.xMajor {
        if l.majorDown {
          DecX(l, o, p);
        } else {
          IncX(l, o, p);
        }
      } else {
        if l.majorDown {
          DecY(l, o, p);
        } else {
          IncY(l, o, p);
        }
      }
      sign := 0 > Signed16(apt);
    }

    /** The canvas as the registers hold it. */
    ghost predicate Shows(c: Canvas)
      reads chip, this`cdat, this`ddat, this`zero
    {
      chip[..] == c.mem && cdat == c.cdat && ddat == c.ddat && zero == c.zero
    }

    /** The machine stands on pixel n. */
    ghost predicate On(l: Line, o: Origin, n: nat)
      requires l.dx > 0
      reads this`apt, this`cpt, this`shift, this`sign, this`onedot
    {
      && AtPixel(l, o, PixelAt(l, n)) && Signed16(apt) == Error(l, n) && sign == (Error(l, n) < 0)
      && (onedot == 0 <==> NewRow(l, n))
    }

    /** Everything before pixel n. */
    ghost predicate Before(l: Line, o: Origin, n: nat)
      reads this`apt, this`cpt, this`shift, this`sign, this`onedot, this`texture, this`linepixel, this`ddat1use,
        this`dpt
    {
      && l.Valid() && chip.Length > 0 && On(l, o, n)
      && texture == Texture(l, n) && !linepixel && ddat1use == (n > 0) && (n == 0 ==> dpt == o.dpt)
    }

    /** The word of pixel n has been read. */
    ghost predicate Fetched(l: Line, o: Origin, c: Canvas, n: nat)
      reads this`apt, this`cpt, this`shift, this`sign, this`onedot, this`texture, this`linepixel, this`ddat1use,
        this`dpt
      reads this`cdat, this`ddat, this`zero, chip
    {
      && Before(l, o, n) && chip[..] == c.mem && ddat == c.ddat && zero == c.zero
      && cdat == if l.useC then Blit.Read(c.mem, cpt) else c.cdat
    }

    /** Pixel n has been combined and the machine has stepped on, but nothing is stored yet. */
    ghost predicate Stepped(l: Line, o: Origin, c: Canvas, n: nat)
      reads this`apt, this`cpt, this`shift, this`sign, this`onedot, this`texture, this`linepixel, this`ddat1use,
        this`dpt
      reads this`cdat, this`ddat, this`zero, chip
    {
      && l.Valid() && chip.Length > 0 && On(l, o, n + 1) && texture == Texture(l, n + 1) && ddat1use
      && chip[..] == c.mem && cdat == Plot(l, o, c, n).cdat && ddat == Plot(l, o, c, n).ddat && zero == c.zero
      && linepixel == Drawn(l, n) && dpt == if n == 0 then o.dpt else Address(l, o.cpt, o.shift, PixelAt(l, n))
    }

    /** Combine and step, in terms of the registers. */
    method Compute(l: Line, ghost o: Origin, ghost n: nat)
      requires l.Valid() && chip.Length > 0 && On(l, o, n) && texture == Texture(l, n)
      requires ddat1use == (n > 0) && (n == 0 ==> dpt == o.dpt)
      modifies this`ddat, this`linepixel, this`onedot, this`dpt, this`ddat1use, this`apt, this`cpt, this`shift,
        this`sign
      ensures var p := PixelAt(l, n);
        && ddat == Dot(l, BitOf(o.shift, p), Texture(l, n), cdat)
        && dpt == (if n == 0 then o.dpt else Address(l, o.cpt, o.shift, p)) && linepixel == Drawn(l, n)
      ensures On(l, o, n + 1) && ddat1use
    {
      hide Address, Nearest, PixelAt, Error, Signed16, Dot, BitOf, NewRow;
      BitRange(o.shift, PixelAt(l, n));
      if ddat1use {
        dpt := cpt;
      }
      ddat1use := true;
      Combine(l);
      LineProc(l, o, n);
    }

    /** Combine, step, rotate the texture and count: the internal cycle. */
    method ComputeDot(l: Line, ghost o: Origin, ghost c: Canvas, ghost n: nat)
      requires Fetched(l, o, c, n) && vsize > 0
      modifies this
      ensures Stepped(l, o, c, n) && vsize == old(vsize) - 1
      ensures cyc == old(cyc) && wait == old(wait) && closing == old(closing) && busy == old(busy)
    {
      hide Address, PixelAt, Dot, RotatedLeft, Blit.Read, Blit.Write, BitOf, Drawn, Plot, NewRow, Error, Signed16;
      PlotFields(l, o, c, n);
      Compute(l, o, n);
      texture := RotatedLeft(texture);
      vsize := vsize - 1;
    }

    /** The write of a pixel, if it is drawn. */
    method StoreDot(l: Line, ghost o: Origin, ghost c: Canvas, ghost n: nat)
      requires Stepped(l, o, c, n)
      modifies this`zero, this`linepixel, chip
      ensures Before(l, o, n + 1) && Shows(Plot(l, o, c, n))
    {
      hide Address, On, PixelAt, Dot, RotatedLeft, Blit.Read, Blit.Write, BitOf, Drawn, Plot;
      PlotFields(l, o, c, n);
      if linepixel {
        WriteD(l);
        linepixel := false;
      }
    }

    /** The read of a pixel's word. */
    method ReadDot(l: Line, ghost o: Origin, ghost c: Canvas, ghost n: nat)
      requires Before(l, o, n) && Shows(c)
      modifies this`cdat
      ensures Fetched(l, o, c, n)
    {
      hide On, Blit.Read, Texture;
      ReadC(l);
    }

    /** One turn of the line loop. */
    method DrawPixel(l: Line, ghost o: Origin, ghost c: Canvas, ghost n: nat)
      requires Before(l, o, n) && Shows(c) && vsize > 0
      modifies this, chip
      ensures Before(l, o, n + 1) && Shows(Plot(l, o, c, n)) && vsize == old(vsize) - 1
    {
      hide Before, Fetched, Stepped, Shows, Plot;
      ReadDot(l, o, c, n);
      ComputeDot(l, o, c, n);
      StoreDot(l, o, c, n);
    }

    /** blitter_read: nothing is read with channel C disabled. */
    method ReadC(l: Line)
      requires chip.Length > 0
      modifies this`cdat
      ensures cdat == if l.useC then Blit.Read(chip[..], cpt) else old(cdat)
    {
      if l.useC {
        cdat := chip[Blit.Cell(chip.Length, cpt)];
      }
    }

    /** blitter_write: nothing is stored with channel C disabled; D does not matter. */
    method WriteD(l: Line)
      requires chip.Length > 0
      modifies this`zero, chip
      ensures chip[..] == if l.useC then Blit.Write(old(chip[..]), dpt, ddat) else old(chip[..])
      ensures zero == (old(zero) && ddat == Word(0))
    {
      if ddat != Word(0) {
        zero := false;
      }
      if l.useC {
        chip[Blit.Cell(chip.Length, dpt)] := ddat;
      }
    }

    /** The registers at the start of a line. */
    ghost predicate Loaded(l: Line, o: Origin)
      reads this
    {
      && l.Valid() && chip.Length > 0 && vsize == l.length
      && cpt == o.cpt < 0x1_0000_0000 && shift == o.shift < 16 && dpt == o.dpt
      && Signed16(apt) == 4 * l.dy - 2 * l.dx && sign == (4 * l.dy - 2 * l.dx < 0)
      && texture == l.b && onedot == 0 && !linepixel && !ddat1use
    }

    /** The line is complete. */
    ghost predicate Drew(l: Line, o: Origin, c: Canvas)
      reads this`apt, this`cpt, this`shift, this`sign, this`onedot, this`texture, this`dpt, this`vsize
      reads this`cdat, this`ddat, this`zero, chip
    {
      && l.Valid() && |c.mem| > 0 && Shows(Plotted(l, o, c, l.length))
      && On(l, o, l.length) && texture == Texture(l, l.length) && dpt == cpt && vsize == 0
    }

    /** actually_do_blit for a line: every pixel of the ideal line is plotted, in order. */
    method DrawLine(l: Line, ghost o: Origin)
      requires Loaded(l, o)
      modifies this, chip
      ensures Drew(l, o, Canvas(old(chip[..]), old(cdat), old(ddat), old(zero)))
    {
      hide Nearest, Error, Signed16, Plot;
      ghost var c := Canvas(chip[..], cdat, ddat, zero);
      ghost var n := 0;
      Ready(l, o);
      while vsize > 0
        invariant n + vsize == l.length && Before(l, o, n) && Shows(Plotted(l, o, c, n))
      {
        DrawPixel(l, o, Plotted(l, o, c, n), n);
        n := n + 1;
      }
      dpt := cpt;
    }

    lemma Ready(l: Line, o: Origin)
      requires Loaded(l, o)
      ensures Before(l, o, 0)
    {
      hide Nearest, Error, Signed16;
      ErrorStart(l);
      Origin0(l, o);
    }

    lemma StandsOn(l: Line, o: Origin, n: nat)
      requires Before(l, o, n)
      ensures On(l, o, n) && texture == Texture(l, n)
    {
    }

    ghost predicate In(l: Line, o: Origin, c: Canvas, place: Place)
      reads this, chip
    {
      && l.Valid() && |c.mem| > 0
      && match place
         case Startup => busy && -STARTUP_CYCLES <= cyc < 0 && Before(l, o, 0) && Shows(c) && vsize == l.length
         case Main(n, p) =>
           && busy && !closing && n < l.length && p < 4 && cyc == 4 * n + p
           && vsize == l.length - n - (if p == 3 then 1 else 0)
           && (p < 2 ==> Before(l, o, n) && Shows(Plotted(l, o, c, n)))
           && (p == 2 ==> Fetched(l, o, Plotted(l, o, c, n), n))
           && (p == 3 ==> Stepped(l, o, Plotted(l, o, c, n), n))
         case Closing => busy && closing && 0 <= cyc <= 2 && Drew(l, o, c)
         case Done => !busy && Drew(l, o, c)
    }

    /** A cycle of the line diagram that is not stalled. */
    method PixelCycle(l: Line, code: nat, ghost o: Origin, ghost c: Canvas, ghost n: nat, ghost p: nat)
      returns (ghost next: Place)
      requires In(l, o, c, Main(n, p)) && code == [0, 3, 5, 4][p]
      modifies this, chip
      ensures In(l, o, c, next) && wait == old(wait) && (next.Main? || next.Closing?)
      ensures if next.Main? then cyc == old(cyc) + 1 else cyc == 0 && old(cyc) == 4 * l.length - 1
    {
      hide Before, Fetched, Stepped, Shows, Plotted, Plot, AtPixel, PixelAt, On;
      cyc := cyc + 1;
      ghost var before := Plotted(l, o, c, n);
      NextPlotted(l, o, c, n);
      next := if p < 3 then Main(n, p + 1) else Main(n + 1, 0);
      if code == 3 {
        ReadDot(l, o, before, n);
      } else if code == 5 {
        ComputeDot(l, o, before, n);
      } else if code == 4 {
        StoreDot(l, o, before, n);
        if vsize == 0 {
          StandsOn(l, o, l.length);
          dpt := cpt;
          closing := true;
          cyc := 0;
          next := Closing;
        }
      }
    }

    /** The cycle that is due neither reads nor writes. */
    ghost predicate Internal()
      reads this`closing, this`cyc
    {
      var code := ChannelState(if closing then FINAL_LINE else LINE, cyc);
      code != 3 && code != 4
    }

    /** One turn of decide_blitter_line's loop.  Reads and writes need blitter DMA, all cycles a free bus. */
    method LineCycle(l: Line, slot: Slot, ghost o: Origin, ghost c: Canvas, ghost place: Place)
      returns (ghost next: Place)
      requires In(l, o, c, place) && busy && (place.Startup? ==> !closing)
      modifies this, chip
      ensures In(l, o, c, next) && !wait && (next.Startup? ==> !closing)
      ensures Cost(l, next, cyc) ==
              old(Cost(l, place, cyc)) - if Usable(slot, old(Internal())) && !old(wait) then 1 else 0
    {
      hide Before, Fetched, Stepped, Shows, Plotted, Drew;
      next := place;
      var code := ChannelState(if closing then FINAL_LINE else LINE, cyc);
      if place.Main? {
        LineEntry(place.n, place.p);
      }
      if wait {
        wait := false;
        return;
      }
      if !slot.free || (!slot.dma && (code == 3 || code == 4)) {
        return;
      }
      if closing || cyc < 0 {
        cyc := cyc + 1;
        NothingPlotted(l, o, c);
        if closing && cyc > 2 {
          busy := false;
          next := Done;
        } else if !closing && cyc == 0 {
          next := Main(0, 0);
        }
      } else {
        next := PixelCycle(l, code, o, c, place.n, place.p);
      }
    }

    /** The start of a cycle exact line; the previous blit's closing flag is cleared because rows are left. */
    method StartLine(l: Line, copper: bool, ghost o: Origin)
      requires Loaded(l, o)
      modifies this`cyc, this`wait, this`closing, this`busy
      ensures In(l, o, Canvas(chip[..], cdat, ddat, zero), Startup) && !closing && wait == copper
      ensures Cost(l, Startup, cyc) == 4 * l.length + 5
    {
      hide Before;
      Ready(l, o);
      cyc := -STARTUP_CYCLES;
      wait, closing, busy := copper, false, true;
    }

    /** decide_blitter_line over any stretch of bus cycles draws what the loop draws, whatever the stalls: done with
        enough cycles that are free with blitter DMA on, and not before there have been so many free ones. */
    method DecideLine(l: Line, bus: seq<Slot>, ghost o: Origin, ghost c: Canvas, ghost place: Place)
      returns (ghost next: Place)
      requires In(l, o, c, place) && (place.Startup? ==> !closing)
      modifies this, chip
      ensures In(l, o, c, next) && (next.Startup? ==> !closing)
      ensures FreeCycles(bus, |bus|) >= old(Cost(l, place, cyc)) + (if old(wait) then 1 else 0) ==> next.Done?
      ensures old(busy) && FreeSlots(bus, |bus|) < old(Cost(l, place, cyc)) + Waited(bus, old(wait)) ==> !next.Done?
    {
      hide Before, Fetched, Stepped, Shows, Plotted, Drew;
      next := place;
      if !busy {
        return;
      }
      ghost var most := Cost(l, place, cyc) + if wait then 1 else 0;
      ghost var least := Cost(l, place, cyc) + Waited(bus, wait);
      for i := 0 to |bus|
        invariant In(l, o, c, next) && busy && (next.Startup? ==> !closing)
        invariant Cost(l, next, cyc) + (if wait then 1 else 0) <= most - FreeCycles(bus, i)
        invariant if i == 0 then Cost(l, next, cyc) == old(Cost(l, place, cyc)) && wait == old(wait)
                  else !wait && Cost(l, next, cyc) >= least - FreeSlots(bus, i)
      {
        FreeMore(bus, i);
        next := LineCycle(l, bus[i], o, c, next);
        if !busy {
          return;
        }
      }
    }
  }

  /** The immediate loop and the cycle-stepped line engine, started alike, leave the same memory, registers and
      pointers, whatever the stalls, as long as the second gets enough cycles. */
  method BothLines(f: Blitter, c: Blitter, l: Line, copper: bool, bus: seq<Slot>, ghost o: Origin)
    requires f.Loaded(l, o) && c.Loaded(l, o) && f != c && f.chip != c.chip
    requires c.chip[..] == f.chip[..] && c.cdat == f.cdat && c.ddat == f.ddat && c.zero == f.zero
    requires FreeCycles(bus, |bus|) >= 4 * l.length + 3 + STARTUP_CYCLES + if copper then 1 else 0
    modifies f, f.chip, c, c.chip
    ensures !c.busy && c.chip[..] == f.chip[..] && c.zero == f.zero && c.cdat == f.cdat && c.ddat == f.ddat
    ensures c.cpt == f.cpt && c.dpt == f.dpt && c.shift == f.shift && c.vsize == f.vsize == 0
    ensures c.texture == f.texture && c.sign == f.sign && Signed16(c.apt) == Signed16(f.apt)
    ensures c.onedot == 0 <==> f.onedot == 0
  {
    hide Nearest, Error, Signed16, Plotted, Address, PixelAt, NewRow, BitOf, Texture;
    ghost var canvas := Canvas(f.chip[..], f.cdat, f.ddat, f.zero);
    f.DrawLine(l, o);
    c.StartLine(l, copper, o);
    ghost var place := c.DecideLine(l, bus, o, canvas, Startup);
  }
}
