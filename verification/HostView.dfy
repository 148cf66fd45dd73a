/** A received frame as the host sees it: through its byte and word accesses to the board's memory, which is kept with
    the two bytes of every word exchanged. */
module HostView {
  import opened Register
  import opened ReceiveRing

  /** The other byte of the same word. */
  function Twin(a: nat): nat {
    if a % 2 == 0 then a + 1 else a - 1
  }

  lemma TwinFits(a: nat)
    ensures Twin(a % 0x8000) < RAM_SIZE
  {
  }

  /** boardram_bget. */
  function HostByte(ram: Ram, a: nat): Reg {
    TwinFits(a);
    ram[Twin(a % 0x8000)]
  }

  /** A big-endian word of two bytes. */
  function HostWord(ram: Ram, a: nat): nat {
    HostByte(ram, a).Number() * 256 + HostByte(ram, a + 1).Number()
  }

  /** Where descriptor number t of a pass lies, counted from the one that is looked at first. */
  function DescriptorAt(g: Ring, t: nat): nat
    requires g.Valid()
  {
    (g.rdra + (g.start + t) % g.rlen * 8) % 0x8000
  }

  lemma IsSlot(g: Ring, t: nat)
    requires g.Valid() && t < g.rlen
    ensures DescriptorAt(g, t) == Base(g, Slot(g, t))
  {
    ModOnce(g.start + t, g.rlen);
  }

  lemma ModOnce(x: nat, p: nat)
    requires x < 2 * p
    ensures x % p == if x < p then x else x - p
  {
    if x >= p {
      assert (x - p) % p == x - p;
      assert x == p + (x - p);
    }
  }

  /** The fields of a descriptor are the words and bytes the host writes there. */
  lemma FieldsOf(ram: Ram, g: Ring, t: nat)
    requires g.Valid() && t < g.rlen
    ensures var at, s := DescriptorAt(g, t), Slot(g, t);
      && at + 7 < RAM_SIZE && at % 8 == 0
      && Owned(ram, g, s) == HostByte(ram, at + 2).Has(0x80)
      && BufferAt(ram, g, s) == HostWord(ram, at) % 0x8000
      && Size(ram, g, s) == 65536 - HostWord(ram, at + 4)
      && LengthOf(ram, g, s) == HostWord(ram, at + 6)
  {
    hide Base, Reg.Has, Reg.Number;
    IsSlot(g, t);
    BaseFits(g, Slot(g, t));
    hide Slot, DescriptorAt;
    Evens(ram, Base(g, Slot(g, t)));
  }

  lemma Evens(ram: Ram, b: nat)
    requires b % 8 == 0 && b + 7 < RAM_SIZE
    ensures HostByte(ram, b) == ram[b + 1] && HostByte(ram, b + 1) == ram[b]
    ensures HostByte(ram, b + 2) == ram[b + 3] && HostByte(ram, b + 3) == ram[b + 2]
    ensures HostByte(ram, b + 4) == ram[b + 5] && HostByte(ram, b + 5) == ram[b + 4]
    ensures HostByte(ram, b + 6) == ram[b + 7] && HostByte(ram, b + 7) == ram[b + 6]
  {
    hide HostByte;
    EvenSteps(b);
    WordAt(ram, b);
    WordAt(ram, b + 2);
    WordAt(ram, b + 4);
    WordAt(ram, b + 6);
  }

  lemma EvenSteps(b: nat)
    requires b % 8 == 0
    ensures b % 2 == 0 && (b + 2) % 2 == 0 && (b + 4) % 2 == 0 && (b + 6) % 2 == 0
  {
    var q := b / 8;
    assert b == 2 * (4 * q);
  }

  lemma WordAt(ram: Ram, a: nat)
    requires a % 2 == 0 && a + 1 < RAM_SIZE
    ensures HostByte(ram, a) == ram[a + 1] && HostByte(ram, a + 1) == ram[a]
  {
    TwinPair(a);
    hide Twin;
  }

  lemma TwinPair(a: nat)
    requires a % 2 == 0 && a + 1 < RAM_SIZE
    ensures Twin(a % 0x8000) == a + 1 && Twin((a + 1) % 0x8000) == a
  {
  }

  lemma TwinTwice(a: nat)
    ensures Twin(Twin(a)) == a && Twin(a) % 0x8000 == Twin(a % 0x8000)
  {
    var q, r := a / 0x8000, a % 0x8000;
    assert a == 0x8000 * q + r && (a % 2 == 0 <==> r % 2 == 0);
    assert Twin(a) == 0x8000 * q + Twin(r) && 0 <= Twin(r) < 0x8000;
  }

  lemma CellIsTwin(a: nat, swap: bool)
    ensures CellOf(a, 0, swap) == (if swap then Twin(a) else a) % 0x8000
    ensures forall addr: nat, i: nat :: addr + i == a ==> CellOf(addr, i, swap) == CellOf(a, 0, swap)
  {
  }

  /** With CSR3_BSWP the host reads a buffer in the order of the data, without it with the bytes of every word
      exchanged. */
  lemma BufferByte(ram: Ram, now: Ram, g: Ring, s: nat, i: nat)
    requires g.Valid()
    ensures now[Cell(ram, g, s, i)] == HostByte(now, if g.swap then BufferAt(ram, g, s) + i
                                                     else Twin(BufferAt(ram, g, s) + i))
  {
    var a := BufferAt(ram, g, s) + i;
    TwinTwice(a);
    TwinTwice(Twin(a));
    CellIsTwin(a, g.swap);
    hide Twin, BufferAt, CellOf;
  }

  /** The room in the first n buffers of the pass, from what the host has written. */
  function RoomBefore(ram: Ram, g: Ring, n: nat): int
    requires g.Valid()
  {
    if n == 0 then 0 else RoomBefore(ram, g, n - 1) + 65536 - HostWord(ram, DescriptorAt(g, n - 1) + 4)
  }

  lemma {:induction false} RoomIs(ram: Ram, g: Ring, n: nat)
    requires g.Valid() && n <= g.rlen
    ensures RoomBefore(ram, g, n) == Room(ram, g, n)
  {
    hide Size, HostWord, DescriptorAt;
    if n > 0 {
      RoomIs(ram, g, n - 1);
      FieldsOf(ram, g, n - 1);
    }
  }

  /** What the host finds at byte i of the buffer it gave with descriptor t. */
  function Received(ram: Ram, now: Ram, g: Ring, t: nat, i: nat): Reg
    requires g.Valid()
  {
    var a := HostWord(ram, DescriptorAt(g, t)) % 0x8000 + i;
    HostByte(now, if g.swap then a else Twin(a))
  }

  lemma {:induction false} GatheredAt(ram: Ram, now: Ram, g: Ring, n: nat, t: nat, i: nat)
    requires g.Valid() && n <= g.rlen
    ensures |Gathered(ram, now, g, n)| == Room(ram, g, n)
    ensures t < n && i < Size(ram, g, Slot(g, t)) ==>
              && Room(ram, g, t) + i < Room(ram, g, n)
              && Gathered(ram, now, g, n)[Room(ram, g, t) + i] == Received(ram, now, g, t, i)
    decreases n
  {
    hide Size, HostWord, DescriptorAt, HostByte, Cell, Slot;
    if n > 0 {
      GatheredAt(ram, now, g, n - 1, t, i);
      if t == n - 1 {
        FieldsOf(ram, g, t);
        BufferByte(ram, now, g, Slot(g, t), i);
      }
    }
  }

  /** How the flags of descriptor t look to the host afterwards: given back, marked as start and end. */
  ghost predicate ShownGivenBack(ram: Ram, now: Ram, g: Ring, t: nat, last: bool)
    requires g.Valid()
  {
    var at := DescriptorAt(g, t);
    && HostByte(ram, at + 2).Has(0x80) && !HostByte(now, at + 2).Has(0x80)
    && (HostByte(now, at + 2).Has(0x02) <==> t == 0 || HostByte(ram, at + 2).Has(0x02))
    && (HostByte(now, at + 2).Has(0x01) <==> last || HostByte(ram, at + 2).Has(0x01))
    && HostByte(now, at + 2).v & 0x7C == HostByte(ram, at + 2).v & 0x7C
    && HostWord(now, at) == HostWord(ram, at) && HostByte(now, at + 3) == HostByte(ram, at + 3)
    && HostWord(now, at + 4) == HostWord(ram, at + 4)
  }

  lemma FlagBits(flags: Reg, first: bool, last: bool)
    ensures var a := flags.Clear(OWN);
      var b := if first then a.Set(STP) else a;
      var c := if last then b.Set(ENP) else b;
      && !c.Has(0x80) && (c.Has(0x02) <==> first || flags.Has(0x02)) && (c.Has(0x01) <==> last || flags.Has(0x01))
      && c.v & 0x7C == flags.v & 0x7C
  {
  }

  lemma FlagsShown(ram: Ram, now: Ram, g: Ring, t: nat, last: bool)
    requires g.Valid() && t < g.rlen
    requires Owned(ram, g, Slot(g, t)) && GivenBack(ram, now, g, Slot(g, t), t == 0, last)
    ensures ShownGivenBack(ram, now, g, t, last)
  {
    hide Base, Reg.Has, Reg.Set, Reg.Clear, Reg.Number, Slot, DescriptorAt;
    FieldsOf(ram, g, t);
    IsSlot(g, t);
    BaseFits(g, Slot(g, t));
    Evens(ram, Base(g, Slot(g, t)));
    Evens(now, Base(g, Slot(g, t)));
    FlagBits(ram[Base(g, Slot(g, t)) + 3], t == 0, last);
  }

  /** A delivered frame of n + 1 buffers, as the host finds it: every descriptor had been handed over and is given back
      with its buffer and size as before; byte i of buffer t is the byte of the frame that comes after all that the
      buffers before it hold; the last descriptor has the length. */
  lemma DeliveredToHost(ram: Ram, now: Ram, g: Ring, data: seq<Reg>, n: nat, t: nat, i: nat)
    requires g.Valid() && Delivered(ram, now, g, data, n) && t <= n
    ensures n < g.rlen && ShownGivenBack(ram, now, g, t, t == n)
    ensures HostWord(now, DescriptorAt(g, n) + 6) == |data| % 65536
    ensures RoomBefore(ram, g, n) < |data| <= RoomBefore(ram, g, n + 1)
    ensures i < 65536 - HostWord(ram, DescriptorAt(g, t) + 4) && RoomBefore(ram, g, t) + i < |data| ==>
              0 <= RoomBefore(ram, g, t) && Received(ram, now, g, t, i) == data[RoomBefore(ram, g, t) + i]
  {
    hide Size, HostWord, DescriptorAt, HostByte, Cell, Slot, GivenBack, LengthOf, Gathered, Used, Owned, Room,
         ShownGivenBack;
    FlagsShown(ram, now, g, t, t == n);
    FieldsOf(now, g, n);
    FieldsOf(ram, g, t);
    RoomIs(ram, g, n);
    RoomIs(ram, g, n + 1);
    RoomIs(ram, g, t);
    var m := |data| - Room(ram, g, n);
    GatheredAt(ram, now, g, n, t, i);
    if t == n {
      if i < m {
        BufferByte(ram, now, g, Slot(g, n), i);
        assert data[Room(ram, g, n) + i] == Piece(ram, now, g, Slot(g, n), m)[i];
      }
    }
  }

  /** A frame that does not fit: the descriptor that was not handed over shows both error bits and is otherwise as it
      was. */
  lemma OverrunShown(mid: Ram, now: Ram, g: Ring, t: nat)
    requires g.Valid() && t < g.rlen && MarkedError(mid, now, g, Slot(g, t))
    ensures HostByte(now, DescriptorAt(g, t) + 2).v == HostByte(mid, DescriptorAt(g, t) + 2).v | 0x14
  {
    hide Base, Reg.Number, Slot, DescriptorAt;
    IsSlot(g, t);
    BaseFits(g, Slot(g, t));
    Evens(mid, Base(g, Slot(g, t)));
    Evens(now, Base(g, Slot(g, t)));
    ErrorBits(mid[Base(g, Slot(g, t)) + 3]);
  }

  lemma ErrorBits(r: Reg)
    ensures r.Set(BUFF).Set(OFLO).v == r.v | 0x14
  {
  }
}
