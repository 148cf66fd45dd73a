/** The receive descriptor ring of the A2065's LANCE scatters a frame over the buffers that the host handed over. */
module ReceiveRing {
  import opened Register

  const RAM_SIZE: nat := 0x8000

  // Bits of the second descriptor word; all of them lie in its high byte.
  const OWN: bv8 := 0x80
  const OFLO: bv8 := 0x10
  const BUFF: bv8 := 0x04
  const STP: bv8 := 0x02
  const ENP: bv8 := 0x01

  /** Ring address and length, the descriptor to look at first, and whether bytes are swapped within words. */
  datatype Ring = Ring(rdra: nat, rlen: nat, start: nat, swap: bool) {
    /** As chip_init reads it: eight-byte aligned, one to 128 descriptors. */
    ghost predicate Valid() {
      rdra < RAM_SIZE && rdra % 8 == 0 && 1 <= rlen <= 128 && start < rlen
    }
  }

  type Ram = s: seq<Reg> | |s| == RAM_SIZE witness seq(RAM_SIZE, i => Reg(0))

  // ---------- descriptors and buffers ----------

  /** Address of descriptor s. */
  function Base(g: Ring, s: nat): nat {
    (g.rdra + s * 8) % 0x8000
  }

  lemma BaseFits(g: Ring, s: nat)
    requires g.Valid()
    ensures Base(g, s) + 7 < RAM_SIZE && Base(g, s) % 8 == 0
  {
  }

  lemma BaseSum(g: Ring, s: nat)
    requires g.Valid() && s < g.rlen
    ensures Base(g, s) == g.rdra + s * 8 || Base(g, s) == g.rdra + s * 8 - 0x8000
  {
  }

  lemma BasesDiffer(g: Ring, s: nat, t: nat)
    requires g.Valid() && s < g.rlen && t < g.rlen && s != t
    ensures Base(g, s) + 8 <= Base(g, t) || Base(g, t) + 8 <= Base(g, s)
  {
    hide Base;
    BaseFits(g, s);
    BaseFits(g, t);
    BaseSum(g, s);
    BaseSum(g, t);
  }

  function Pair(high: Reg, low: Reg): nat {
    high.Number() * 256 + low.Number()
  }

  predicate Owned(ram: Ram, g: Ring, s: nat)
    requires g.Valid()
  {
    BaseFits(g, s);
    ram[Base(g, s) + 3].Has(OWN)
  }

  function BufferAt(ram: Ram, g: Ring, s: nat): nat
    requires g.Valid()
  {
    BaseFits(g, s);
    Pair(ram[Base(g, s) + 1], ram[Base(g, s)]) % 0x8000
  }

  function Size(ram: Ram, g: Ring, s: nat): (n: nat)
    requires g.Valid()
    ensures n > 0
  {
    BaseFits(g, s);
    SizePositive(ram[Base(g, s) + 5], ram[Base(g, s) + 4]);
    65536 - Pair(ram[Base(g, s) + 5], ram[Base(g, s) + 4])
  }

  /** The length field of a descriptor. */
  function LengthOf(ram: Ram, g: Ring, s: nat): nat
    requires g.Valid()
  {
    BaseFits(g, s);
    Pair(ram[Base(g, s) + 7], ram[Base(g, s) + 6])
  }

  lemma SizePositive(high: Reg, low: Reg)
    ensures Pair(high, low) < 65536
  {
  }

  /** Where byte i of a buffer lies. */
  function CellOf(addr: nat, i: nat, swap: bool): (c: nat)
    ensures c < RAM_SIZE
  {
    var a := addr + i;
    (if !swap then a else if a % 2 == 0 then a + 1 else a - 1) % 0x8000
  }

  function Cell(ram: Ram, g: Ring, s: nat, i: nat): (c: nat)
    requires g.Valid()
    ensures c < RAM_SIZE
  {
    CellOf(BufferAt(ram, g, s), i, g.swap)
  }

  lemma CellsDiffer(addr: nat, i: nat, j: nat, swap: bool)
    requires i < RAM_SIZE && j < RAM_SIZE && i != j
    ensures CellOf(addr, i, swap) != CellOf(addr, j, swap)
  {
  }

  /** Whether an address lies in descriptor s. */
  predicate InDescriptor(g: Ring, s: nat, loc: nat) {
    Base(g, s) <= loc < Base(g, s) + 8
  }

  /** Whether an address lies in the buffer of descriptor s. */
  ghost predicate InBuffer(ram: Ram, g: Ring, s: nat, loc: nat)
    requires g.Valid()
  {
    exists i: nat :: i < Size(ram, g, s) && loc == Cell(ram, g, s, i)
  }

  /** Whether an address lies in a buffer that the host has handed over. */
  ghost predicate HandedOver(ram: Ram, g: Ring, s: nat, loc: nat)
    requires g.Valid()
  {
    s < g.rlen && Owned(ram, g, s) && InBuffer(ram, g, s, loc)
  }

  /** The buffers that the host has handed over do not overlap each other or the ring, and none is larger than the
      memory. */
  ghost predicate Disjoint(ram: Ram, g: Ring)
    requires g.Valid()
  {
    && (forall s: nat :: s < g.rlen && Owned(ram, g, s) ==> Size(ram, g, s) <= RAM_SIZE)
    && (forall s: nat, t: nat, loc: nat :: HandedOver(ram, g, s, loc) && t < g.rlen ==> !InDescriptor(g, t, loc))
    && (forall s: nat, t: nat, loc: nat :: HandedOver(ram, g, s, loc) && HandedOver(ram, g, t, loc) ==> s == t)
  }

  /** What Disjoint says about two owned descriptors and one address. */
  lemma Apart(ram: Ram, g: Ring, s: nat, t: nat, loc: nat)
    requires g.Valid() && Disjoint(ram, g) && s < g.rlen && t < g.rlen
    ensures Owned(ram, g, s) && InBuffer(ram, g, s, loc) ==> !InDescriptor(g, t, loc)
    ensures Owned(ram, g, t) && InBuffer(ram, g, t, loc) ==> !InDescriptor(g, s, loc)
    ensures Owned(ram, g, s) && InBuffer(ram, g, s, loc) && Owned(ram, g, t) && InBuffer(ram, g, t, loc) ==> s == t
  {
    hide Owned, InBuffer, InDescriptor, Size;
    assert HandedOver(ram, g, s, loc) ==> !InDescriptor(g, t, loc);
    assert HandedOver(ram, g, t, loc) ==> !InDescriptor(g, s, loc);
  }

  /** The descriptor that is looked at in step t. */
  function Slot(g: Ring, t: nat): nat
    requires g.Valid()
  {
    if g.start + t < g.rlen then g.start + t else g.start + t - g.rlen
  }

  lemma SlotsDiffer(g: Ring, t: nat, u: nat)
    requires g.Valid() && t < g.rlen && u < g.rlen && t != u
    ensures Slot(g, t) < g.rlen && Slot(g, u) < g.rlen && Slot(g, t) != Slot(g, u)
  {
  }

  /** The room in the first n buffers. */
  function Room(ram: Ram, g: Ring, n: nat): nat
    requires g.Valid()
  {
    if n == 0 then 0 else Room(ram, g, n - 1) + Size(ram, g, Slot(g, n - 1))
  }

  /** The first m bytes of a buffer. */
  function Piece(ram: Ram, now: Ram, g: Ring, s: nat, m: nat): (p: seq<Reg>)
    requires g.Valid()
    ensures |p| == m
  {
    seq(m, i requires 0 <= i < m => now[Cell(ram, g, s, i)])
  }

  // ---------- the state after n full buffers ----------

  /** Whether an address belongs to one of the first n descriptors or their buffers. */
  ghost predicate Used(ram: Ram, g: Ring, n: nat, loc: nat)
    requires g.Valid()
  {
    exists t: nat :: t < n && (InDescriptor(g, Slot(g, t), loc) || InBuffer(ram, g, Slot(g, t), loc))
  }

  /** Descriptor s has been given back: not owned any more, start and end marks as asked, buffer and size as before. */
  ghost predicate GivenBack(ram: Ram, now: Ram, g: Ring, s: nat, first: bool, last: bool)
    requires g.Valid()
  {
    BaseFits(g, s);
    var b := Base(g, s);
    var flags := ram[b + 3].Clear(OWN);
    var started := if first then flags.Set(STP) else flags;
    && now[b] == ram[b] && now[b + 1] == ram[b + 1] && now[b + 2] == ram[b + 2]
    && now[b + 3] == (if last then started.Set(ENP) else started)
    && now[b + 4] == ram[b + 4] && now[b + 5] == ram[b + 5]
  }

  /** n buffers have been filled with the beginning of the data. */
  ghost predicate Filled(ram: Ram, now: Ram, g: Ring, data: seq<Reg>, n: nat)
    requires g.Valid()
  {
    && n <= g.rlen && Room(ram, g, n) < |data|
    && (forall t: nat :: t < n ==> Owned(ram, g, Slot(g, t)) && GivenBack(ram, now, g, Slot(g, t), t == 0, false))
    && (forall t: nat :: t < n ==> PieceOk(ram, now, g, data, t))
    && (forall loc: nat :: loc < RAM_SIZE && !Used(ram, g, n, loc) ==> now[loc] == ram[loc])
  }

  ghost predicate PieceOk(ram: Ram, now: Ram, g: Ring, data: seq<Reg>, t: nat)
    requires g.Valid()
  {
    var at, m := Room(ram, g, t), Size(ram, g, Slot(g, t));
    at + m <= |data| && Piece(ram, now, g, Slot(g, t), m) == data[at..at + m]
  }

  /** What the filled buffers hold, one after the other. */
  function Gathered(ram: Ram, now: Ram, g: Ring, n: nat): seq<Reg>
    requires g.Valid()
  {
    if n == 0 then [] else
      Gathered(ram, now, g, n - 1) + Piece(ram, now, g, Slot(g, n - 1), Size(ram, g, Slot(g, n - 1)))
  }

  lemma {:induction false} GatheredIsPrefix(ram: Ram, now: Ram, g: Ring, data: seq<Reg>, n: nat)
    requires g.Valid() && forall t: nat :: t < n ==> PieceOk(ram, now, g, data, t)
    ensures Room(ram, g, n) <= |data| || n == 0
    ensures Room(ram, g, n) <= |data| ==> Gathered(ram, now, g, n) == data[..Room(ram, g, n)]
  {
    hide Piece, Size, Slot;
    if n > 0 {
      GatheredIsPrefix(ram, now, g, data, n - 1);
      assert PieceOk(ram, now, g, data, n - 1);
    }
  }

  // ---------- one step ----------

  /** A descriptor that has not been reached is as the host left it. */
  lemma Unreached(ram: Ram, now: Ram, g: Ring, data: seq<Reg>, n: nat, loc: nat)
    requires g.Valid() && Disjoint(ram, g) && Filled(ram, now, g, data, n) && n < g.rlen
    requires InDescriptor(g, Slot(g, n), loc) || (Owned(ram, g, Slot(g, n)) && InBuffer(ram, g, Slot(g, n), loc))
    ensures !Used(ram, g, n, loc)
    ensures loc < RAM_SIZE ==> now[loc] == ram[loc]
  {
    hide GivenBack, PieceOk, Size, Base, Slot, Owned;
    if Used(ram, g, n, loc) {
      var t: nat :| t < n && (InDescriptor(g, Slot(g, t), loc) || InBuffer(ram, g, Slot(g, t), loc));
      SlotsDiffer(g, t, n);
      BasesDiffer(g, Slot(g, t), Slot(g, n));
      Apart(ram, g, Slot(g, t), Slot(g, n), loc);
      assert false;
    }
    if loc < RAM_SIZE {
      FrameOf(ram, now, g, data, n, loc);
    }
  }

  lemma FrameOf(ram: Ram, now: Ram, g: Ring, data: seq<Reg>, n: nat, loc: nat)
    requires g.Valid() && Filled(ram, now, g, data, n) && loc < RAM_SIZE
    ensures !Used(ram, g, n, loc) ==> now[loc] == ram[loc]
  {
  }

  /** The two memories agree on descriptor s. */
  predicate SameDescriptor(ram: Ram, now: Ram, g: Ring, s: nat)
    requires g.Valid()
  {
    BaseFits(g, s);
    now[Base(g, s)..Base(g, s) + 8] == ram[Base(g, s)..Base(g, s) + 8]
  }

  lemma NextIntact(ram: Ram, now: Ram, g: Ring, data: seq<Reg>, n: nat)
    requires g.Valid() && Disjoint(ram, g) && Filled(ram, now, g, data, n) && n < g.rlen
    ensures SameDescriptor(ram, now, g, Slot(g, n))
  {
    hide Filled, Disjoint, Slot;
    var b := Base(g, Slot(g, n));
    BaseFits(g, Slot(g, n));
    forall i | b <= i < b + 8 ensures now[i] == ram[i] {
      Unreached(ram, now, g, data, n, i);
    }
  }

  lemma ClearedOwn(r: Reg)
    ensures !r.Clear(OWN).Has(OWN) && !r.Clear(OWN).Set(STP).Has(OWN)
  {
  }

  /** After a whole pass the next descriptor is the first one again, and not owned any more. */
  lemma PassEnds(ram: Ram, now: Ram, g: Ring, data: seq<Reg>)
    requires g.Valid() && Filled(ram, now, g, data, g.rlen)
    ensures !Owned(now, g, g.start)
  {
    hide Base;
    BaseFits(g, g.start);
    ClearedOwn(ram[Base(g, g.start) + 3]);
    assert Slot(g, 0) == g.start;
    assert GivenBack(ram, now, g, Slot(g, 0), true, false);
  }

  /** The memory after one more buffer has been filled with all it can take and its descriptor given back. */
  ghost predicate OneMore(ram: Ram, now: Ram, later: Ram, g: Ring, data: seq<Reg>, n: nat, last: bool)
    requires g.Valid()
  {
    var s, at := Slot(g, n), Room(ram, g, n);
    var m := if last then |data| - at else Size(ram, g, s);
    && GivenBack(ram, later, g, s, n == 0, last)
    && 0 <= m <= Size(ram, g, s) && at + m <= |data| && Piece(ram, later, g, s, m) == data[at..at + m]
    && (forall loc: nat :: loc < RAM_SIZE && !InDescriptor(g, s, loc) && !InBuffer(ram, g, s, loc) ==>
      later[loc] == now[loc])
  }

  /** Filling buffer n does not touch the earlier ones. */
  lemma EarlierKept(ram: Ram, now: Ram, later: Ram, g: Ring, data: seq<Reg>, n: nat, last: bool, t: nat)
    requires g.Valid() && Disjoint(ram, g) && Filled(ram, now, g, data, n) && OneMore(ram, now, later, g, data, n, last)
    requires t < n < g.rlen && Owned(ram, g, Slot(g, n))
    ensures GivenBack(ram, later, g, Slot(g, t), t == 0, false) && PieceOk(ram, later, g, data, t)
  {
    hide Size, Base, Slot, GivenBack, Piece, InBuffer, InDescriptor;
    var s, e := Slot(g, n), Slot(g, t);
    SlotsDiffer(g, t, n);
    BasesApart(g, e, s);
    forall loc: nat | loc < RAM_SIZE && (InDescriptor(g, e, loc) || InBuffer(ram, g, e, loc))
      ensures later[loc] == now[loc]
    {
      Apart(ram, g, e, s, loc);
      assert !InDescriptor(g, s, loc) && !InBuffer(ram, g, s, loc);
    }
    assert GivenBack(ram, now, g, e, t == 0, false) && PieceOk(ram, now, g, data, t);
    StillGivenBack(ram, now, later, g, e, t == 0);
    SamePiece(ram, now, later, g, e, Size(ram, g, e));
  }

  lemma BasesApart(g: Ring, e: nat, s: nat)
    requires g.Valid() && s < g.rlen && e < g.rlen && s != e
    ensures forall loc: nat :: InDescriptor(g, e, loc) ==> !InDescriptor(g, s, loc)
  {
    hide Base;
    BasesDiffer(g, e, s);
  }

  lemma StillGivenBack(ram: Ram, now: Ram, later: Ram, g: Ring, e: nat, first: bool)
    requires g.Valid() && GivenBack(ram, now, g, e, first, false)
    requires forall loc: nat :: loc < RAM_SIZE && InDescriptor(g, e, loc) ==> later[loc] == now[loc]
    ensures GivenBack(ram, later, g, e, first, false)
  {
    hide Base;
    BaseFits(g, e);
    var b := Base(g, e);
    assert forall i: nat | b <= i < b + 8 :: InDescriptor(g, e, i);
  }

  lemma SamePiece(ram: Ram, now: Ram, later: Ram, g: Ring, e: nat, m: nat)
    requires g.Valid() && m <= Size(ram, g, e)
    requires forall loc: nat :: loc < RAM_SIZE && InBuffer(ram, g, e, loc) ==> later[loc] == now[loc]
    ensures Piece(ram, later, g, e, m) == Piece(ram, now, g, e, m)
  {
    hide Size, Cell;
    forall i: nat | i < m ensures later[Cell(ram, g, e, i)] == now[Cell(ram, g, e, i)] {
      assert InBuffer(ram, g, e, Cell(ram, g, e, i));
    }
  }

  lemma UsedMore(ram: Ram, g: Ring, n: nat, loc: nat)
    requires g.Valid()
    ensures Used(ram, g, n + 1, loc) <==>
      (Used(ram, g, n, loc) || InDescriptor(g, Slot(g, n), loc) || InBuffer(ram, g, Slot(g, n), loc))
  {
    hide Slot, InDescriptor, InBuffer;
  }

  lemma NewPiece(ram: Ram, now: Ram, later: Ram, g: Ring, data: seq<Reg>, n: nat)
    requires g.Valid() && OneMore(ram, now, later, g, data, n, false)
    ensures GivenBack(ram, later, g, Slot(g, n), n == 0, false) && PieceOk(ram, later, g, data, n)
  {
    hide Size, Base, Slot, GivenBack, InDescriptor, InBuffer, Room;
  }

  lemma FrameOfStep(ram: Ram, now: Ram, later: Ram, g: Ring, data: seq<Reg>, n: nat, last: bool, loc: nat)
    requires g.Valid() && OneMore(ram, now, later, g, data, n, last) && loc < RAM_SIZE
    requires !InDescriptor(g, Slot(g, n), loc) && !InBuffer(ram, g, Slot(g, n), loc)
    ensures later[loc] == now[loc]
  {
    hide Size, Base, Slot, GivenBack, InDescriptor, InBuffer, Room;
  }

  lemma StepFills(ram: Ram, now: Ram, later: Ram, g: Ring, data: seq<Reg>, n: nat)
    requires g.Valid() && Disjoint(ram, g) && Filled(ram, now, g, data, n)
      && OneMore(ram, now, later, g, data, n, false)
    requires n < g.rlen && Owned(ram, g, Slot(g, n)) && Room(ram, g, n + 1) < |data|
    ensures Filled(ram, later, g, data, n + 1)
  {
    hide Size, Base, Slot, Used, GivenBack, PieceOk, InDescriptor, InBuffer, Disjoint, Owned, OneMore;
    NewPiece(ram, now, later, g, data, n);
    forall t: nat | t < n + 1
      ensures Owned(ram, g, Slot(g, t)) && GivenBack(ram, later, g, Slot(g, t), t == 0, false)
        && PieceOk(ram, later, g, data, t)
    {
      if t < n {
        EarlierKept(ram, now, later, g, data, n, false, t);
      }
    }
    forall loc: nat | loc < RAM_SIZE && !Used(ram, g, n + 1, loc) ensures later[loc] == ram[loc] {
      UsedMore(ram, g, n, loc);
      FrameOf(ram, now, g, data, n, loc);
      FrameOfStep(ram, now, later, g, data, n, false, loc);
    }
  }

  /** The frame has been delivered in n + 1 buffers: all were owned, the data runs through them in ring order, the first
      descriptor is marked as start and the last as end and holds the length, and nothing else has changed. */
  ghost predicate Delivered(ram: Ram, now: Ram, g: Ring, data: seq<Reg>, n: nat)
    requires g.Valid()
  {
    var s := Slot(g, n);
    && n < g.rlen && Room(ram, g, n) < |data| <= Room(ram, g, n + 1)
    && (forall t: nat :: t <= n ==> Owned(ram, g, Slot(g, t)) && GivenBack(ram, now, g, Slot(g, t), t == 0, t == n))
    && Gathered(ram, now, g, n) + Piece(ram, now, g, s, |data| - Room(ram, g, n)) == data
    && LengthOf(now, g, s) == |data| % 0x10000
    && (forall loc: nat :: loc < RAM_SIZE && !Used(ram, g, n + 1, loc) ==> now[loc] == ram[loc])
  }

  lemma StepDelivers(ram: Ram, now: Ram, later: Ram, g: Ring, data: seq<Reg>, n: nat)
    requires g.Valid() && Disjoint(ram, g) && Filled(ram, now, g, data, n) && OneMore(ram, now, later, g, data, n, true)
    requires n < g.rlen && Owned(ram, g, Slot(g, n)) && |data| <= Room(ram, g, n + 1)
    requires LengthOf(later, g, Slot(g, n)) == |data| % 0x10000
    ensures Delivered(ram, later, g, data, n)
  {
    hide Size, Base, Slot, Used, GivenBack, Piece, InDescriptor, InBuffer, Disjoint, PieceOk, LengthOf, Gathered;
    forall t: nat | t < n
      ensures Owned(ram, g, Slot(g, t)) && GivenBack(ram, later, g, Slot(g, t), t == 0, false)
        && PieceOk(ram, later, g, data, t)
    {
      EarlierKept(ram, now, later, g, data, n, true, t);
    }
    GatheredIsPrefix(ram, later, g, data, n);
    forall loc: nat | loc < RAM_SIZE && !Used(ram, g, n + 1, loc) ensures later[loc] == ram[loc] {
      UsedMore(ram, g, n, loc);
      FrameOf(ram, now, g, data, n, loc);
    }
  }

  // ---------- the receiver ----------

  /** n descriptors from the first one on are owned. */
  ghost predicate AllOwned(ram: Ram, g: Ring, n: nat)
    requires g.Valid()
  {
    forall t: nat :: t < n ==> Owned(ram, g, Slot(g, t))
  }

  /** The data fits the run of owned buffers that starts at the first descriptor. */
  ghost predicate Fits(ram: Ram, g: Ring, len: nat)
    requires g.Valid()
  {
    exists n: nat :: n <= g.rlen && AllOwned(ram, g, n) && Room(ram, g, n) >= len
  }

  lemma RoomGrows(ram: Ram, g: Ring, m: nat, n: nat)
    requires g.Valid() && m <= n
    ensures Room(ram, g, m) <= Room(ram, g, n)
    decreases n - m
  {
    hide Size, Slot;
    if m < n {
      RoomGrows(ram, g, m + 1, n);
    }
  }

  lemma NoFit(ram: Ram, g: Ring, n: nat, len: nat)
    requires g.Valid() && n <= g.rlen && Room(ram, g, n) < len
    requires n == g.rlen || !Owned(ram, g, Slot(g, n))
    ensures !Fits(ram, g, len)
  {
    hide Size, Slot, Owned, Room;
    forall k: nat | k <= g.rlen && AllOwned(ram, g, k) ensures Room(ram, g, k) < len {
      assert k <= n;
      RoomGrows(ram, g, k, n);
    }
  }

  /** The frame did not fit: the buffers before the first one that is not owned are full, and the descriptor that was
      not owned is marked. */
  ghost predicate Overrun(ram: Ram, now: Ram, g: Ring, data: seq<Reg>, n: nat)
    requires g.Valid()
  {
    exists mid: Ram :: 0 < n <= g.rlen && Filled(ram, mid, g, data, n) && MarkedError(mid, now, g, Upcoming(g, n))
  }

  ghost predicate MarkedError(mid: Ram, now: Ram, g: Ring, s: nat)
    requires g.Valid()
  {
    BaseFits(g, s);
    now == mid[Base(g, s) + 3 := mid[Base(g, s) + 3].Set(BUFF).Set(OFLO)]
  }

  class Lance {
    const boardram: array<Reg>
    var rdra: nat
    var rlen: nat
    var swap: bool
    var rdrOffset: nat
    var rxon: bool
    var miss: bool
    var rint: bool

    ghost predicate Valid()
      reads this
    {
      boardram.Length == RAM_SIZE && rdra < RAM_SIZE && rdra % 8 == 0 && 1 <= rlen <= 128 && rdrOffset <= rlen
    }

    /** The ring as the next frame will find it. */
    ghost function Current(): (g: Ring)
      reads this
      requires Valid()
      ensures g.Valid()
    {
      Ring(rdra, rlen, if rdrOffset == rlen then 0 else rdrOffset, swap)
    }

    /** Fill one buffer with as much of the data as it takes. */
    method FillBuffer(addr: nat, size: nat, data: seq<Reg>, insize: nat) returns (m: nat)
      requires boardram.Length == RAM_SIZE && size <= RAM_SIZE && insize <= |data|
      modifies boardram
      ensures m == if size < |data| - insize then size else |data| - insize
      ensures forall i: nat :: i < m ==> boardram[CellOf(addr, i, swap)] == data[insize + i]
      ensures forall loc: nat :: loc < RAM_SIZE && (forall i: nat :: i < m ==> loc != CellOf(addr, i, swap)) ==>
        boardram[loc] == old(boardram[loc])
    {
      hide CellOf;
      var i := 0;
      while i < size && insize + i < |data|
        invariant i <= size && insize + i <= |data|
        invariant forall k: nat :: k < i ==> boardram[CellOf(addr, k, swap)] == data[insize + k]
        invariant forall loc: nat :: loc < RAM_SIZE && (forall k: nat :: k < i ==> loc != CellOf(addr, k, swap)) ==>
          boardram[loc] == old(boardram[loc])
      {
        forall k: nat | k < i ensures CellOf(addr, k, swap) != CellOf(addr, i, swap) {
          CellsDiffer(addr, k, i, swap);
        }
        boardram[CellOf(addr, i, swap)] := data[insize + i];
        i := i + 1;
      }
      m := i;
    }

    /** Write back the second and fourth word of a descriptor. */
    method WriteDescriptor(p: nat, rmd1: Reg, rmd1Low: Reg, rmd3: Reg, rmd3Low: Reg)
      requires boardram.Length == RAM_SIZE && p + 7 < RAM_SIZE
      modifies boardram
      ensures boardram[p + 3] == rmd1 && boardram[p + 2] == rmd1Low && boardram[p + 7] == rmd3
        && boardram[p + 6] == rmd3Low
      ensures forall loc: nat :: loc < RAM_SIZE && !(p <= loc < p + 8) ==> boardram[loc] == old(boardram[loc])
      ensures boardram[p] == old(boardram[p]) && boardram[p + 1] == old(boardram[p + 1])
      ensures boardram[p + 4] == old(boardram[p + 4]) && boardram[p + 5] == old(boardram[p + 5])
    {
      boardram[p + 3] := rmd1;
      boardram[p + 2] := rmd1Low;
      boardram[p + 7] := rmd3;
      boardram[p + 6] := rmd3Low;
    }

    /** One owned buffer: filled, marked and given back. */
    method TakeBuffer(p: nat, first: bool, data: seq<Reg>, insize: nat, ghost ram: Ram, ghost g: Ring, ghost n: nat)
      returns (filled: nat)
      requires g.Valid() && Disjoint(ram, g) && boardram.Length == RAM_SIZE && swap == g.swap
      requires Filled(ram, boardram[..], g, data, n) && n < g.rlen && insize == Room(ram, g, n)
      requires p == Base(g, Slot(g, n)) && first == (n == 0) && Owned(ram, g, Slot(g, n))
      modifies boardram
      ensures filled == if Room(ram, g, n + 1) < |data| then Room(ram, g, n + 1) else |data|
      ensures OneMore(ram, old(boardram[..]), boardram[..], g, data, n, filled == |data|)
      ensures filled == |data| ==> LengthOf(boardram[..], g, Slot(g, n)) == |data| % 0x10000
    {
      hide Base, Slot, CellOf, Pair, Disjoint, Room, Used, PieceOk, InBuffer, Piece, ByteOf;
      ghost var s, was := Slot(g, n), boardram[..];
      BaseFits(g, s);
      NextIntact(ram, was, g, data, n);
      SlotFits(g, n);
      BufferApart(ram, g, s);
      SameBytes(ram, was, g, s);
      var rmd1, rmd1Low, rmd3, rmd3Low := boardram[p + 3], boardram[p + 2], boardram[p + 7], boardram[p + 6];
      var addr := Pair(boardram[p + 1], boardram[p]) % 0x8000;
      SizePositive(boardram[p + 5], boardram[p + 4]);
      var size := 65536 - Pair(boardram[p + 5], boardram[p + 4]);
      rmd1 := rmd1.Clear(OWN);
      if first {
        rmd1 := rmd1.Set(STP);
      }
      var m := FillBuffer(addr, size, data, insize);
      filled := insize + m;
      RoomNext(ram, g, n);
      if filled >= |data| {
        rmd1 := rmd1.Set(ENP);
        rmd3, rmd3Low := ByteOf(|data| / 256 % 256), ByteOf(|data| % 256);
        LengthBytes(|data|);
      }
      ghost var mid := boardram[..];
      OthersKept(ram, was, mid, g, s, m, addr);
      WriteDescriptor(p, rmd1, rmd1Low, rmd3, rmd3Low);
      PieceStays(ram, mid, boardram[..], g, s, m);
      assert Piece(ram, mid, g, s, m) == data[insize..insize + m] by {
        PieceFilled(ram, mid, g, s, m, addr, data, insize);
      }
    }

    /** The descriptor that is not owned: the receiver gives up. */
    method GiveUp(p: nat, first: bool, ghost g: Ring, ghost s: nat)
      requires g.Valid() && boardram.Length == RAM_SIZE && p == Base(g, s)
      modifies boardram, this`rxon, this`miss
      ensures if first then boardram[..] == old(boardram[..]) && miss && rxon == old(rxon)
              else MarkedError(old(boardram[..]), boardram[..], g, s) && !rxon && miss == old(miss)
    {
      hide Base;
      BaseFits(g, s);
      var rmd1 := boardram[p + 3];
      if !first {
        rmd1 := rmd1.Set(BUFF).Set(OFLO);
        rxon := false;
      } else {
        miss := true;
      }
      boardram[p + 3] := rmd1;
      boardram[p + 2] := boardram[p + 2];
    }

    /** The loop of gotfunc. */
    method Scatter(data: seq<Reg>) returns (delivered: bool, ghost n: nat)
      requires Valid() && rxon && |data| > 0 && Disjoint(boardram[..], Current())
      modifies this`rdrOffset, this`rxon, this`miss, this`rint, boardram
      ensures Valid() && n <= rlen
      ensures var ram: Ram, g := old(boardram[..]), old(Current());
        && (delivered <==> Fits(ram, g, |data|))
        && (delivered ==> n > 0 && Delivered(ram, boardram[..], g, data, n - 1) && rint && rxon)
        && (!delivered && n == 0 ==> boardram[..] == ram && miss && rxon)
        && (!delivered && n > 0 ==> Overrun(ram, boardram[..], g, data, n) && !rxon)
    {
      hide Filled, Disjoint, Base, Slot, Used, GivenBack, Size, OneMore, Delivered, MarkedError, Fits, Room, Overrun,
        Upcoming, Wrapped;
      delivered, n := false, 0;
      ghost var ram: Ram, g := boardram[..], Current();
      var insize, first := 0, true;
      NothingFilled(ram, g, data);
      StartsAt(g);
      while true
        invariant Valid() && n <= rlen && insize == Room(ram, g, n) < |data| && first == (n == 0)
        invariant Filled(ram, boardram[..], g, data, n)
        invariant rlen == g.rlen && rdra == g.rdra && swap == g.swap && rxon && miss == old(miss)
        invariant Wrapped(rdrOffset, rlen) == Upcoming(g, n)
        decreases |data| - insize
      {
        rdrOffset := Wrapped(rdrOffset, rlen);
        ghost var s, before: Ram := Upcoming(g, n), boardram[..];
        var p := (rdra + rdrOffset * 8) % 0x8000;
        assert p == Base(g, s) by { BaseIs(g, s, p); }
        BaseFits(g, s);
        OwnedAt(ram, before, g, data, n);
        if !boardram[p + 3].Has(OWN) {
          NoFit(ram, g, n, |data|);
          GiveUp(p, first, g, s);
          if n == 0 {
            NothingChanged(ram, before, g, data);
          } else {
            OverrunAt(ram, before, boardram[..], g, data, n);
          }
          return;
        }
        rdrOffset := rdrOffset + 1;
        SlotUpcoming(g, n);
        NextSlot(g, n);
        insize := TakeBuffer(p, first, data, insize, ram, g, n);
        first := false;
        RoomNext(ram, g, n);
        if insize >= |data| {
          StepDelivers(ram, before, boardram[..], g, data, n);
          break;
        }
        StepFills(ram, before, boardram[..], g, data, n);
        n := n + 1;
      }
      FitsAt(ram, boardram[..], g, data, n);
      n := n + 1;
      rint := true;
      delivered := true;
    }

    /** gotfunc, for a frame that passes the address checks, with its four check bytes.  The number of filled buffers,
        n, is never more than the ring has: every buffer taken has one owned descriptor less behind it. */
    method GotFrame(frame: seq<Reg>, check: seq<Reg>) returns (delivered: bool, ghost n: nat)
      requires Valid() && |check| == 4 && Disjoint(boardram[..], Current())
      modifies this`rdrOffset, this`rxon, this`miss, this`rint, boardram
      ensures Valid() && n <= rlen
      ensures !old(rxon) || |frame| < 20 ==> !delivered && unchanged(this) && unchanged(boardram)
      ensures old(rxon) && |frame| >= 20 ==>
        var ram: Ram, g, data := old(boardram[..]), old(Current()), frame + check;
        && (delivered <==> Fits(ram, g, |data|))
        && (delivered ==> n > 0 && Delivered(ram, boardram[..], g, data, n - 1) && rint && rxon)
        && (!delivered && n == 0 ==> boardram[..] == ram && miss && rxon)
        && (!delivered && n > 0 ==> Overrun(ram, boardram[..], g, data, n) && !rxon)
    {
      hide Disjoint, Delivered, Fits, Overrun;
      delivered, n := false, 0;
      if rxon && |frame| >= 20 {
        delivered, n := Scatter(frame + check);
      }
    }
  }

  /** rdr_offset %= am_rdr_rlen. */
  function Wrapped(offset: nat, rlen: nat): (r: nat)
    requires offset <= rlen && rlen > 0
    ensures r == if offset == rlen then 0 else offset
  {
    offset % rlen
  }

  /** The descriptor that is looked at after n buffers. */
  function Upcoming(g: Ring, n: nat): (s: nat)
    requires g.Valid() && n <= g.rlen
    ensures s < g.rlen
  {
    if n == g.rlen then g.start else Slot(g, n)
  }

  lemma SlotUpcoming(g: Ring, n: nat)
    requires g.Valid() && n < g.rlen
    ensures Upcoming(g, n) == Slot(g, n)
  {
  }

  lemma NextSlot(g: Ring, n: nat)
    requires g.Valid() && n < g.rlen
    ensures Wrapped(Slot(g, n) + 1, g.rlen) == Upcoming(g, n + 1)
  {
  }

  lemma StartsAt(g: Ring)
    requires g.Valid()
    ensures Upcoming(g, 0) == g.start
  {
  }

  lemma BaseIs(g: Ring, s: nat, p: nat)
    requires p == (g.rdra + s * 8) % 0x8000
    ensures p == Base(g, s)
  {
  }

  lemma NothingFilled(ram: Ram, g: Ring, data: seq<Reg>)
    requires g.Valid() && |data| > 0
    ensures Filled(ram, ram, g, data, 0) && Room(ram, g, 0) == 0
  {
  }

  lemma NothingChanged(ram: Ram, now: Ram, g: Ring, data: seq<Reg>)
    requires g.Valid() && Filled(ram, now, g, data, 0)
    ensures now == ram
  {
  }

  /** The next descriptor is owned if and only if the pass is not complete and the host had handed it over. */
  lemma OwnedAt(ram: Ram, now: Ram, g: Ring, data: seq<Reg>, n: nat)
    requires g.Valid() && Disjoint(ram, g) && n <= g.rlen && Filled(ram, now, g, data, n)
    ensures Owned(now, g, Upcoming(g, n)) <==> n < g.rlen && Owned(ram, g, Slot(g, n))
  {
    hide Filled, Disjoint, Slot, Base;
    if n == g.rlen {
      PassEnds(ram, now, g, data);
    } else {
      NextIntact(ram, now, g, data, n);
      SameBytes(ram, now, g, Slot(g, n));
    }
  }

  lemma OverrunAt(ram: Ram, mid: Ram, now: Ram, g: Ring, data: seq<Reg>, n: nat)
    requires g.Valid() && n > 0 && Filled(ram, mid, g, data, n) && n <= g.rlen
      && MarkedError(mid, now, g, Upcoming(g, n))
    ensures Overrun(ram, now, g, data, n)
  {
    hide Filled, MarkedError, Slot;
  }

  lemma FitsAt(ram: Ram, now: Ram, g: Ring, data: seq<Reg>, n: nat)
    requires g.Valid() && Delivered(ram, now, g, data, n)
    ensures Fits(ram, g, |data|)
  {
    hide Room, Slot, Gathered, Piece, GivenBack, LengthOf, Used, Owned;
    assert AllOwned(ram, g, n + 1);
  }

  /** The byte with this value. */
  function ByteOf(n: nat): (r: Reg)
    requires n < 256
    ensures r.Number() == n
  {
    NatByte(n);
    Reg(n as bv8)
  }

  lemma LengthBytes(n: nat)
    ensures Pair(ByteOf(n / 256 % 256), ByteOf(n % 256)) == n % 0x10000
  {
    hide ByteOf;
    assert n / 256 % 256 * 256 + n % 256 == n % 0x10000 by { Halves(n); }
  }

  lemma Halves(n: nat)
    ensures n / 256 % 256 * 256 + n % 256 == n % 0x10000
  {
  }

  /** Outside the buffer the memory is as before; the descriptor is. */
  lemma OthersKept(ram: Ram, was: Ram, mid: Ram, g: Ring, s: nat, m: nat, addr: nat)
    requires g.Valid() && m <= Size(ram, g, s) && addr == BufferAt(ram, g, s)
    requires forall loc: nat :: loc < RAM_SIZE && (forall i: nat :: i < m ==> loc != CellOf(addr, i, g.swap)) ==>
      mid[loc] == was[loc]
    requires forall i: nat :: i < Size(ram, g, s) ==> !InDescriptor(g, s, Cell(ram, g, s, i))
    ensures forall loc: nat :: loc < RAM_SIZE && !InBuffer(ram, g, s, loc) ==> mid[loc] == was[loc]
    ensures forall loc: nat :: loc < RAM_SIZE && Base(g, s) <= loc < Base(g, s) + 8 ==> mid[loc] == was[loc]
  {
    hide Base, Size, CellOf, BufferAt;
    forall loc: nat | loc < RAM_SIZE && (!InBuffer(ram, g, s, loc) || InDescriptor(g, s, loc))
      ensures mid[loc] == was[loc]
    {
      forall i: nat | i < m ensures loc != CellOf(addr, i, g.swap) {
        assert loc != Cell(ram, g, s, i);
      }
    }
  }

  lemma PieceFilled(ram: Ram, mid: Ram, g: Ring, s: nat, m: nat, addr: nat, data: seq<Reg>, at: nat)
    requires g.Valid() && m <= Size(ram, g, s) && addr == BufferAt(ram, g, s) && at + m <= |data|
    requires forall i: nat :: i < m ==> mid[CellOf(addr, i, g.swap)] == data[at + i]
    ensures Piece(ram, mid, g, s, m) == data[at..at + m]
  {
    hide Size, CellOf, BufferAt;
  }

  /** Writing the descriptor leaves the buffer. */
  lemma PieceStays(ram: Ram, mid: Ram, later: Ram, g: Ring, s: nat, m: nat)
    requires g.Valid() && m <= Size(ram, g, s)
    requires forall loc: nat :: loc < RAM_SIZE && !InDescriptor(g, s, loc) ==> later[loc] == mid[loc]
    requires forall i: nat :: i < Size(ram, g, s) ==> !InDescriptor(g, s, Cell(ram, g, s, i))
    ensures Piece(ram, later, g, s, m) == Piece(ram, mid, g, s, m)
  {
    hide Base, Size, Cell, InDescriptor;
  }

  lemma SameBytes(ram: Ram, now: Ram, g: Ring, s: nat)
    requires g.Valid() && SameDescriptor(ram, now, g, s)
    ensures Base(g, s) + 7 < RAM_SIZE && forall i :: Base(g, s) <= i < Base(g, s) + 8 ==> now[i] == ram[i]
  {
    hide Base;
    BaseFits(g, s);
    var b := Base(g, s);
    forall i | b <= i < b + 8 ensures now[i] == ram[i] {
      assert now[b..b + 8][i - b] == ram[b..b + 8][i - b];
    }
  }

  lemma RoomNext(ram: Ram, g: Ring, n: nat)
    requires g.Valid()
    ensures Room(ram, g, n + 1) == Room(ram, g, n) + Size(ram, g, Slot(g, n))
  {
  }

  lemma SlotFits(g: Ring, n: nat)
    requires g.Valid() && n < g.rlen
    ensures Slot(g, n) < g.rlen
  {
  }

  /** A buffer lies outside its own descriptor. */
  lemma BufferApart(ram: Ram, g: Ring, s: nat)
    requires g.Valid() && Disjoint(ram, g) && s < g.rlen && Owned(ram, g, s)
    ensures Size(ram, g, s) <= RAM_SIZE
    ensures forall i: nat :: i < Size(ram, g, s) ==> !InDescriptor(g, s, Cell(ram, g, s, i))
  {
    forall i: nat | i < Size(ram, g, s) ensures !InDescriptor(g, s, Cell(ram, g, s, i)) {
      assert InBuffer(ram, g, s, Cell(ram, g, s, i));
      Apart(ram, g, s, s, Cell(ram, g, s, i));
    }
  }
}
