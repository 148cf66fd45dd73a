/** The ring of subchannel packets between the CD reader's thread and the emulation, as Akiko and the CDTV use it.
    Everything done under the semaphore is one step; the consumer's first look at the offsets is outside it. */
module SubcodeRing {

  type Packet = seq<nat>

  /** MAX_SUBCODEBUFFER. */
  const SLOTS: nat := 36

  /** How far slot s lies behind the read offset, going round. */
  function Distance(r: nat, s: nat): nat
    requires r < SLOTS && s < SLOTS
  {
    if s >= r then s - r else s + SLOTS - r
  }

  function Min(a: nat, b: nat): nat {
    if a < b then a else b
  }

  // ---------- what the steps do to the packets that wait ----------

  /** How many of n offered packets are taken in. */
  function Accepted(waiting: nat, n: nat): nat
    requires waiting <= SLOTS
  {
    if waiting == SLOTS then 0 else Min(n, SLOTS - waiting)
  }

  /** A producer that finds the ring full empties it; otherwise it fills up what is free. */
  function Offered(queue: seq<Packet>, data: seq<Packet>): (q: seq<Packet>)
    requires |queue| <= SLOTS
    ensures |q| <= SLOTS
  {
    if |queue| == SLOTS then [] else queue + data[..Accepted(|queue|, |data|)]
  }

  /** The slots in use are the cyclic run from the read to the write offset, and hold the packets in order. */
  ghost predicate CyclicRun(inuse: seq<bool>, slots: seq<Packet>, r: nat, w: nat, queue: seq<Packet>) {
    && |inuse| == SLOTS && |slots| == SLOTS && r < SLOTS && |queue| <= SLOTS && w == (r + |queue|) % SLOTS
    && (forall s: nat :: s < SLOTS ==> (inuse[s] <==> Distance(r, s) < |queue|))
    && (forall s: nat :: s < SLOTS && inuse[s] ==> slots[s] == queue[Distance(r, s)])
  }

  /** The slot at the write offset is in use exactly when the ring is full; writing it there keeps the run. */
  lemma Pushed(inuse: seq<bool>, slots: seq<Packet>, r: nat, w: nat, queue: seq<Packet>, packet: Packet)
    requires CyclicRun(inuse, slots, r, w, queue)
    ensures w < SLOTS && (inuse[w] <==> |queue| == SLOTS)
    ensures |queue| < SLOTS ==>
      CyclicRun(inuse[w := true], slots[w := packet], r, if w + 1 >= SLOTS then 0 else w + 1, queue + [packet])
  {
    if |queue| < SLOTS {
      assert Distance(r, w) == |queue|;
      var q := queue + [packet];
      forall s: nat | s < SLOTS ensures inuse[w := true][s] <==> Distance(r, s) < |q| {
        assert Distance(r, s) == |queue| <==> s == w;
      }
    } else {
      assert w == r;
    }
  }

  /** Freeing the slot at the read offset takes the oldest packet. */
  lemma Popped(inuse: seq<bool>, slots: seq<Packet>, r: nat, w: nat, queue: seq<Packet>)
    requires CyclicRun(inuse, slots, r, w, queue)
    ensures inuse[r] <==> |queue| > 0
    ensures |queue| > 0 ==>
      && slots[r] == queue[0]
      && CyclicRun(inuse[r := false], slots, if r + 1 >= SLOTS then r + 1 - SLOTS else r + 1, w, queue[1..])
  {
    assert Distance(r, r) == 0;
    if |queue| > 0 {
      var next := if r + 1 >= SLOTS then r + 1 - SLOTS else r + 1;
      forall s: nat | s < SLOTS && s != r ensures Distance(next, s) == Distance(r, s) - 1 {}
      assert Distance(next, r) == SLOTS - 1;
    }
  }

  class Ring {
    const inuse: array<bool>
    const slots: array<Packet>
    var r: nat
    var w: nat

    ghost predicate Shape()
      reads this
    {
      inuse.Length == SLOTS && slots.Length == SLOTS && r < SLOTS && w < SLOTS
    }

    /** The ring holds these waiting packets. */
    ghost predicate Holds(queue: seq<Packet>)
      reads this, inuse, slots
    {
      Shape() && CyclicRun(inuse[..], slots[..], r, w, queue)
    }

    constructor ()
      ensures Holds([]) && fresh(inuse) && fresh(slots)
    {
      inuse := new bool[SLOTS](i => false);
      slots := new Packet[SLOTS](i => []);
      r, w := 0, 0;
    }

    /** What a reset and an overflowing producer do under the semaphore. */
    method Reset()
      requires Shape()
      modifies this, inuse
      ensures Holds([])
    {
      for i := 0 to SLOTS
        invariant forall s :: 0 <= s < i ==> !inuse[s]
      {
        inuse[i] := false;
      }
      w := 0;
      r := 0;
    }

    /** subfunc.  The second overflow test can only stop the loop, never overwrite a packet that waits. */
    method Produce(enabled: bool, data: seq<Packet>, ghost queue: seq<Packet>)
      requires Holds(queue)
      modifies this, inuse, slots
      ensures Holds(if enabled then Offered(queue, data) else queue)
    {
      if !enabled {
        return;
      }
      hide CyclicRun, Distance;
      Pushed(inuse[..], slots[..], r, w, queue, []);
      assert queue + data[..0] == queue;
      if inuse[w] {
        Reset();
        return;
      }
      var offset: nat, cnt := w, 0;
      while cnt < |data|
        invariant cnt <= |data| && Shape() && r == old(r) && cnt + |queue| <= SLOTS
        invariant CyclicRun(inuse[..], slots[..], r, offset, queue + data[..cnt])
      {
        Pushed(inuse[..], slots[..], r, offset, queue + data[..cnt], data[cnt]);
        if inuse[offset] {
          break;
        }
        inuse[offset] := true;
        slots[offset] := data[cnt];
        offset := offset + 1;
        if offset >= SLOTS {
          offset := 0;
        }
        assert queue + data[..cnt + 1] == queue + data[..cnt] + [data[cnt]];
        cnt := cnt + 1;
      }
      w := offset;
    }

    /** The consumer's look at the two offsets, outside the semaphore, while nobody else is at work: it sees waiting
        packets unless there are none, or the ring is exactly full. */
    method LooksNonempty(ghost queue: seq<Packet>) returns (b: bool)
      requires Holds(queue)
      ensures b <==> 0 < |queue| < 36
    {
      b := r != w;
    }

    /** The consumer's step under the semaphore, taken whenever its look said so, however old that look is. */
    method Consume(ghost queue: seq<Packet>) returns (got: bool, packet: Packet)
      requires Holds(queue)
      modifies this, inuse
      ensures got <==> |queue| > 0
      ensures got ==> packet == queue[0] && Holds(queue[1..])
      ensures !got ==> Holds(queue)
    {
      hide CyclicRun;
      Popped(inuse[..], slots[..], r, w, queue);
      got, packet := false, [];
      if inuse[r] {
        got := true;
        packet := slots[r];
        inuse[r] := false;
        r := r + 1;
        if r >= SLOTS {
          r := r - SLOTS;
        }
      }
    }
  }

  // ---------- whole runs ----------

  /** One step of either thread, in the order in which they got the semaphore. */
  datatype Action = Offer(data: seq<Packet>) | Take | Clear

  /** A run, with packets named by their place in the stream of all offered packets. */
  datatype History = History(offered: seq<Packet>, waiting: seq<nat>, taken: seq<nat>, lost: seq<nat>)

  function From(n: nat, k: nat): (s: seq<nat>)
    ensures |s| == k && forall i :: 0 <= i < k ==> s[i] == n + i
  {
    seq(k, i requires 0 <= i < k => n + i)
  }

  function After(h: History, a: Action): History
    requires |h.waiting| <= SLOTS
  {
    match a
    case Offer(data) =>
      var n, k := |h.offered|, Accepted(|h.waiting|, |data|);
      if |h.waiting| == SLOTS then
        h.(offered := h.offered + data, waiting := [], lost := h.lost + h.waiting + From(n, |data|))
      else
        h.(offered := h.offered + data, waiting := h.waiting + From(n, k), lost := h.lost + From(n + k, |data| - k))
    case Take => if |h.waiting| == 0 then h else h.(waiting := h.waiting[1..], taken := h.taken + h.waiting[..1])
    case Clear => h.(waiting := [], lost := h.lost + h.waiting)
  }

  function Run(acts: seq<Action>): (h: History)
    ensures |h.waiting| <= SLOTS
  {
    if |acts| == 0 then History([], [], [], []) else After(Run(acts[..|acts| - 1]), acts[|acts| - 1])
  }

  /** Every place is one in a stream of n packets. */
  predicate Below(places: seq<nat>, n: nat) {
    forall i :: 0 <= i < |places| ==> places[i] < n
  }

  /** The packets that a list of places names. */
  function Named(stream: seq<Packet>, places: seq<nat>): (s: seq<Packet>)
    requires Below(places, |stream|)
    ensures |s| == |places|
  {
    seq(|places|, i requires 0 <= i < |places| => stream[places[i]])
  }

  predicate Increasing(s: seq<nat>) {
    forall i, j :: 0 <= i < j < |s| ==> s[i] < s[j]
  }

  /** What was delivered and what waits is in the order of the stream, with nothing twice. */
  predicate InOrder(h: History) {
    Increasing(h.taken + h.waiting) && Below(h.taken, |h.offered|) && Below(h.waiting, |h.offered|)
  }

  lemma IncreasingMore(s: seq<nat>, n: nat, k: nat)
    requires Increasing(s) && Below(s, n)
    ensures Increasing(s + From(n, k))
  {
  }

  lemma StepInOrder(h: History, a: Action)
    requires InOrder(h) && |h.waiting| <= SLOTS
    ensures InOrder(After(h, a))
  {
    hide Accepted, Increasing;
    var g := After(h, a);
    var kept, now := h.taken + h.waiting, g.taken + g.waiting;
    match a
    case Offer(data) =>
      if |h.waiting| == SLOTS {
        Prefix(h);
      } else {
        var k := Accepted(|h.waiting|, |data|);
        IncreasingMore(kept, |h.offered|, k);
        assert now == kept + From(|h.offered|, k);
      }
    case Take =>
      assert now == kept;
    case Clear =>
      Prefix(h);
  }

  lemma Prefix(h: History)
    requires Increasing(h.taken + h.waiting)
    ensures Increasing(h.taken + [])
  {
    var kept := h.taken + h.waiting;
    assert h.taken + [] == kept[..|h.taken|];
  }

  lemma {:induction false} DeliveredInOrder(acts: seq<Action>)
    ensures InOrder(Run(acts))
    decreases |acts|
  {
    hide After, InOrder;
    if |acts| == 0 {
      assert InOrder(History([], [], [], [])) by { Nothing(); }
    } else {
      DeliveredInOrder(acts[..|acts| - 1]);
      StepInOrder(Run(acts[..|acts| - 1]), acts[|acts| - 1]);
    }
  }

  lemma Nothing()
    ensures InOrder(History([], [], [], [])) && Accounted(History([], [], [], []))
  {
    assert From(0, 0) == [];
  }

  /** Every offered packet is exactly one of delivered, waiting and lost. */
  predicate Accounted(h: History) {
    multiset(h.taken) + multiset(h.waiting) + multiset(h.lost) == multiset(From(0, |h.offered|))
  }

  lemma FromSplit(n: nat, k: nat, m: nat)
    ensures From(n, k + m) == From(n, k) + From(n + k, m)
  {
  }

  lemma MoveToLost(taken: multiset<nat>, waiting: multiset<nat>, lost: multiset<nat>, more: multiset<nat>,
          all: multiset<nat>)
    requires taken + waiting + lost == all
    ensures taken + multiset{} + (lost + waiting + more) == all + more
  {
  }

  lemma MoveToWaiting(taken: multiset<nat>, waiting: multiset<nat>, lost: multiset<nat>, more: multiset<nat>,
          out: multiset<nat>, all: multiset<nat>)
    requires taken + waiting + lost == all
    ensures taken + (waiting + more) + (lost + out) == all + (more + out)
  {
  }

  lemma MoveToTaken(taken: multiset<nat>, first: multiset<nat>, rest: multiset<nat>, lost: multiset<nat>,
          all: multiset<nat>)
    requires taken + (first + rest) + lost == all
    ensures taken + first + rest + lost == all
  {
  }

  lemma OfferAccounted(h: History, data: seq<Packet>)
    requires Accounted(h) && |h.waiting| < SLOTS
    ensures Accounted(After(h, Offer(data)))
  {
    hide Accepted, From;
    var n, k := |h.offered|, Accepted(|h.waiting|, |data|);
    AcceptedFits(|h.waiting|, |data|);
    FromSplit(0, n, |data|);
    FromSplit(n, k, |data| - k);
    MoveToWaiting(multiset(h.taken), multiset(h.waiting), multiset(h.lost), multiset(From(n, k)),
      multiset(From(n + k, |data| - k)), multiset(From(0, n)));
  }

  lemma OverflowAccounted(h: History, data: seq<Packet>)
    requires Accounted(h) && |h.waiting| == SLOTS
    ensures Accounted(After(h, Offer(data)))
  {
    hide Accepted, From;
    FromSplit(0, |h.offered|, |data|);
    MoveToLost(multiset(h.taken), multiset(h.waiting), multiset(h.lost), multiset(From(|h.offered|, |data|)),
      multiset(From(0, |h.offered|)));
  }

  lemma StepAccounted(h: History, a: Action)
    requires Accounted(h) && |h.waiting| <= SLOTS
    ensures Accounted(After(h, a))
  {
    hide Accepted, From;
    var taken, lost, all := multiset(h.taken), multiset(h.lost), multiset(From(0, |h.offered|));
    match a
    case Offer(data) =>
      if |h.waiting| == SLOTS {
        OverflowAccounted(h, data);
      } else {
        OfferAccounted(h, data);
      }
    case Take =>
      if |h.waiting| > 0 {
        assert h.waiting == h.waiting[..1] + h.waiting[1..];
        MoveToTaken(taken, multiset(h.waiting[..1]), multiset(h.waiting[1..]), lost, all);
      }
    case Clear =>
      MoveToLost(taken, multiset(h.waiting), lost, multiset{}, all);
  }

  lemma AcceptedFits(waiting: nat, n: nat)
    requires waiting <= SLOTS
    ensures Accepted(waiting, n) <= n
  {
  }

  lemma {:induction false} NothingVanishes(acts: seq<Action>)
    ensures Accounted(Run(acts))
    decreases |acts|
  {
    hide After, Accounted;
    if |acts| == 0 {
      Nothing();
    } else {
      NothingVanishes(acts[..|acts| - 1]);
      StepAccounted(Run(acts[..|acts| - 1]), acts[|acts| - 1]);
    }
  }

  /** The steps that lose nothing: an offer that fits a ring that is not full, a reset of an empty ring, any take. */
  predicate Keeps(h: History, a: Action) {
    match a
    case Offer(data) => |h.waiting| < SLOTS && |h.waiting| + |data| <= SLOTS
    case Take => true
    case Clear => |h.waiting| == 0
  }

  predicate KeepsAt(acts: seq<Action>, i: nat)
    requires i < |acts|
  {
    Keeps(Run(acts[..i]), acts[i])
  }

  /** Packets are lost exactly when some offer overflows or some reset finds packets waiting. */
  lemma {:induction false} LostOnlyByOverflowOrReset(acts: seq<Action>)
    ensures Run(acts).lost == [] <==> forall i: nat :: i < |acts| ==> KeepsAt(acts, i)
    decreases |acts|
  {
    hide After, Keeps;
    if |acts| > 0 {
      var n := |acts| - 1;
      var before := acts[..n];
      LostOnlyByOverflowOrReset(before);
      forall i: nat | i < n ensures KeepsAt(before, i) == KeepsAt(acts, i) {
        assert before[..i] == acts[..i];
      }
      StepLoses(Run(before), acts[n]);
      assert KeepsAt(acts, n) == Keeps(Run(before), acts[n]);
      if Run(acts).lost == [] {
        forall i: nat | i < |acts| ensures KeepsAt(acts, i) {
          if i < n {
            assert KeepsAt(before, i);
          }
        }
      }
    }
  }

  lemma StepLoses(h: History, a: Action)
    requires |h.waiting| <= SLOTS
    ensures After(h, a).lost == [] <==> h.lost == [] && Keeps(h, a)
  {
  }

  // ---------- the ring under any interleaving ----------

  lemma NamedMore(stream: seq<Packet>, places: seq<nat>, data: seq<Packet>, k: nat)
    requires Below(places, |stream|) && k <= |data|
    ensures Below(places + From(|stream|, k), |stream + data|)
    ensures Named(stream + data, places + From(|stream|, k)) == Named(stream, places) + data[..k]
  {
  }

  lemma OfferNames(h: History, data: seq<Packet>)
    requires InOrder(h) && |h.waiting| <= SLOTS
    ensures var g := After(h, Offer(data));
      && InOrder(g) && Named(g.offered, g.waiting) == Offered(Named(h.offered, h.waiting), data)
      && Named(g.offered, g.taken) == Named(h.offered, h.taken)
  {
    hide Accepted, Increasing;
    StepInOrder(h, Offer(data));
    var k := Accepted(|h.waiting|, |data|);
    AcceptedFits(|h.waiting|, |data|);
    NamedMore(h.offered, h.waiting, data, k);
    NamedMore(h.offered, h.taken, data, 0);
    assert h.taken + From(|h.offered|, 0) == h.taken;
  }

  lemma TakeNames(h: History)
    requires InOrder(h) && 0 < |h.waiting| <= SLOTS
    ensures var g := After(h, Take);
      && InOrder(g) && Named(g.offered, g.waiting) == Named(h.offered, h.waiting)[1..]
      && Named(g.offered, g.taken) == Named(h.offered, h.taken) + [Named(h.offered, h.waiting)[0]]
  {
    hide Increasing;
    StepInOrder(h, Take);
  }

  /** After the history h, the ring holds the packets that wait and the consumer has got the delivered ones. */
  ghost predicate Agrees(ring: Ring, h: History, delivered: seq<Packet>)
    reads ring, ring.inuse, ring.slots
  {
    && InOrder(h) && |h.waiting| <= SLOTS
    && delivered == Named(h.offered, h.taken) && ring.Holds(Named(h.offered, h.waiting))
  }

  method Step(ring: Ring, a: Action, ghost h: History, delivered: seq<Packet>) returns (now: seq<Packet>)
    requires Agrees(ring, h, delivered)
    modifies ring, ring.inuse, ring.slots
    ensures Agrees(ring, After(h, a), now)
  {
    hide Increasing, Accepted, CyclicRun, Named;
    now := delivered;
    ghost var queue := Named(h.offered, h.waiting);
    StepInOrder(h, a);
    match a {
      case Offer(data) =>
        OfferNames(h, data);
        ring.Produce(true, data, queue);
      case Take =>
        if |h.waiting| > 0 {
          TakeNames(h);
        }
        var got, packet := ring.Consume(queue);
        if got {
          now := now + [packet];
        }
      case Clear =>
        ring.Reset();
    }
  }

  /** Any interleaving of offers, takes and resets: the consumer gets packets in the order of the stream, none twice. */
  method Play(ring: Ring, acts: seq<Action>) returns (delivered: seq<Packet>)
    requires ring.Holds([])
    modifies ring, ring.inuse, ring.slots
    ensures Agrees(ring, Run(acts), delivered)
  {
    delivered := [];
    for n := 0 to |acts|
      invariant Agrees(ring, Run(acts[..n]), delivered)
    {
      assert acts[..n + 1][..n] == acts[..n];
      delivered := Step(ring, acts[n], Run(acts[..n]), delivered);
    }
    assert acts[..|acts|] == acts;
  }

  // ---------- the full ring ----------

  /** A producer that offers one packet n times, with no consumer at work. */
  function Singles(packet: Packet, n: nat): (acts: seq<Action>)
    ensures |acts| == n
  {
    seq(n, i => Offer([packet]))
  }

  lemma {:induction false} FillsUp(packet: Packet, n: nat)
    requires n <= SLOTS
    ensures var h := Run(Singles(packet, n));
      |h.offered| == n && h.waiting == From(0, n) && h.taken == [] && h.lost == []
  {
    if n > 0 {
      FillsUp(packet, n - 1);
      assert Singles(packet, n)[..n - 1] == Singles(packet, n - 1);
      assert From(0, n) == From(0, n - 1) + From(n - 1, 1);
    }
  }

  /** Thirty-six packets wait; the next one offered empties the ring, and all thirty-seven are lost. */
  lemma FullRingLosesAll(packet: Packet)
    ensures |Run(Singles(packet, 36)).waiting| == 36 && Run(Singles(packet, 36)).lost == []
    ensures Run(Singles(packet, 37)).waiting == [] && Run(Singles(packet, 37)).lost == From(0, 37)
  {
    FillsUp(packet, SLOTS);
    assert Singles(packet, SLOTS + 1)[..SLOTS] == Singles(packet, SLOTS);
    FromSplit(0, SLOTS, 1);
  }

  /** And a consumer that looks at the full ring sees nothing, although it holds thirty-six packets. */
  method FillAndLook(ring: Ring, packet: Packet) returns (sees: bool, ghost queue: seq<Packet>)
    requires ring.Holds([])
    modifies ring, ring.inuse, ring.slots
    ensures !sees && |queue| == SLOTS && ring.Holds(queue)
  {
    var acts := Singles(packet, SLOTS);
    FullRingLosesAll(packet);
    var delivered := Play(ring, acts);
    queue := Named(Run(acts).offered, Run(acts).waiting);
    sees := ring.LooksNonempty(queue);
  }
}
