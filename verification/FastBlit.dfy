/** What the two nested loops of the fast blitter compute.  They keep a local copy of every pointer and take the value 0
    for a disabled channel, so an enabled channel whose pointer becomes 0 is off from then on. */
module FastBlit {
  import opened BlitterWords
  import opened BlitterFill
  import opened Blit

  /** The number of the word in column i of row j. */
  function WordAt(h: nat, j: nat, i: nat): nat {
    j * h + i
  }

  lemma WordSteps(h: nat, v: nat, j: nat)
    ensures forall i: nat :: WordAt(h, j, i) == WordAt(h, j, 0) + i
    ensures WordAt(h, j, h) == WordAt(h, j + 1, 0) && WordAt(h, 0, 0) == 0 && WordAt(h, v, 0) == h * v
  {
    assert j * h + h == (j + 1) * h;
  }

  lemma RowStart(h: nat, j: nat)
    requires h > 0
    ensures Col(WordAt(h, j, 0), h) == 0
  {
    SplitWord(j * h, h, 0, j);
  }

  /** A channel's pointer after the words of row j, before the modulo. */
  function RowEnd(cfg: Config, ch: Channel, j: nat): nat {
    PtrAt(ch, cfg.desc, WordAt(cfg.h, j + 1, 0), j)
  }

  // ---------- pointers that are 0 ----------

  /** The loops take a pointer of 0 for a disabled channel.  They look before every word and after every row; this says
      that all looks before word k, the first rows row ends among them, found the channel on. */
  ghost predicate Passed(cfg: Config, ch: Channel, k: nat, rows: nat)
    requires cfg.h > 0
  {
    && ch.on
    && (forall i: nat :: i < k ==> Addr(cfg, ch, i) != 0)
    && (forall j: nat :: j < rows ==> RowEnd(cfg, ch, j) != 0)
  }

  /** The channel is served at word k. */
  ghost predicate Served(cfg: Config, ch: Channel, k: nat)
    requires cfg.h > 0
  {
    Passed(cfg, ch, k, Row(k, cfg.h)) && Addr(cfg, ch, k) != 0
  }

  /** The local pointer of a channel; 0 means that the channel is off. */
  ghost function Cursor(cfg: Config, ch: Channel, k: nat, rows: nat): nat
    requires cfg.h > 0
  {
    if Passed(cfg, ch, k, rows) then PtrAt(ch, cfg.desc, k, rows) else 0
  }

  /** A look before word k, and the step that follows if the channel is on. */
  lemma CursorStep(cfg: Config, ch: Channel, k: nat, rows: nat)
    requires cfg.h > 0 && rows == Row(k, cfg.h)
    ensures Cursor(cfg, ch, k, rows) != 0 <==> Served(cfg, ch, k)
    ensures Served(cfg, ch, k) ==> Cursor(cfg, ch, k, rows) == Addr(cfg, ch, k)
    ensures Cursor(cfg, ch, k + 1, rows) ==
      if Served(cfg, ch, k) then Wrap(Addr(cfg, ch, k) + Mult(cfg.desc) * 2) else 0
  {
    hide PtrAt, Row, Wrap, Mult;
    PtrStep(ch, cfg.desc, k, rows);
  }

  /** A look after row j, and the modulo that follows if the channel is on. */
  lemma CursorRow(cfg: Config, ch: Channel, j: nat)
    requires cfg.h > 0
    ensures var k, ptr := WordAt(cfg.h, j + 1, 0), Cursor(cfg, ch, WordAt(cfg.h, j + 1, 0), j);
      Cursor(cfg, ch, k, j + 1) == if ptr != 0 then Wrap(ptr + Mult(cfg.desc) * ch.modulo) else 0
  {
    hide PtrAt, Row, Wrap, Mult, WordAt;
    PtrStep(ch, cfg.desc, WordAt(cfg.h, j + 1, 0), j);
    ghost var end := RowEnd(cfg, ch, j);
  }

  lemma CursorStart(cfg: Config, ch: Channel)
    requires cfg.h > 0 && ch.ptr < 0x1_0000_0000
    ensures Cursor(cfg, ch, 0, 0) == if ch.on then ch.ptr else 0
  {
    PtrStart(ch, cfg.desc);
  }

  /** Once off, a channel stays off. */
  lemma OffForGood(cfg: Config, ch: Channel, k: nat, m: nat)
    requires cfg.h > 0 && k <= m && Served(cfg, ch, m)
    ensures Served(cfg, ch, k)
  {
    hide PtrAt, Row;
    RowMonotone(k, m, cfg.h);
  }

  /** An enabled pointer is not 0 where the loops look: at every word and after every row but the last. */
  ghost predicate Alive(cfg: Config, ch: Channel)
    requires cfg.h > 0
  {
    ch.on ==>
      && (forall k: nat :: k < cfg.Words() ==> Addr(cfg, ch, k) != 0)
      && (forall j: nat :: j < cfg.v - 1 ==> RowEnd(cfg, ch, j) != 0)
  }

  ghost predicate Live(cfg: Config)
    requires cfg.h > 0
  {
    Alive(cfg, cfg.a) && Alive(cfg, cfg.b) && Alive(cfg, cfg.c) && Alive(cfg, cfg.d)
  }

  lemma AliveServes(cfg: Config, ch: Channel, k: nat)
    requires cfg.Valid() && ch.on && Alive(cfg, ch) && k < cfg.Words()
    ensures Served(cfg, ch, k)
  {
    hide Addr, Row, RowEnd;
    WordCount(cfg);
    LastWord(k, cfg.h, cfg.v);
  }

  lemma ServedToTheEnd(cfg: Config, ch: Channel)
    requires cfg.Valid() && cfg.Words() > 0 && Served(cfg, ch, cfg.Words() - 1)
    ensures Alive(cfg, ch)
  {
    hide Addr, Row, RowEnd, Col;
    var last := cfg.Words() - 1;
    WordCount(cfg);
    LastWord(last, cfg.h, cfg.v);
    LastWord(last + 1, cfg.h, cfg.v);
    NextWord(last, cfg.h);
  }

  /** An enabled channel is served at every word if and only if its pointer never is 0 where the loops look. */
  lemma AliveIff(cfg: Config, ch: Channel)
    requires cfg.Valid() && ch.on
    ensures Alive(cfg, ch) <==> forall k: nat :: k < cfg.Words() ==> Served(cfg, ch, k)
  {
    hide Alive, Served, Config.Words;
    WordCount(cfg);
    if Alive(cfg, ch) {
      forall k: nat | k < cfg.Words()
        ensures Served(cfg, ch, k)
      {
        AliveServes(cfg, ch, k);
      }
    }
    if Served(cfg, ch, cfg.Words() - 1) {
      ServedToTheEnd(cfg, ch);
    }
  }

  // ---------- what the loops compute ----------

  /** The channels as the loops see them at word k. */
  ghost function Serving(cfg: Config, k: nat): (r: Config)
    requires cfg.Valid()
    ensures r.Valid()
  {
    cfg.(a := cfg.a.(on := Served(cfg, cfg.a, k)), b := cfg.b.(on := Served(cfg, cfg.b, k)),
         c := cfg.c.(on := Served(cfg, cfg.c, k)))
  }

  lemma SameAddr(cfg: Config, k: nat)
    requires cfg.Valid()
    ensures var e := Serving(cfg, k);
      && Addr(e, e.a, k) == Addr(cfg, cfg.a, k) && Addr(e, e.b, k) == Addr(cfg, cfg.b, k)
      && Addr(e, e.c, k) == Addr(cfg, cfg.c, k)
  {
    hide Served;
  }

  /** The word whose place the result waiting at word k is stored to: the last one before k that D was served for.  When
      D's pointer has become 0, later results go to the same place. */
  ghost function Target(cfg: Config, k: nat): (t: int)
    requires cfg.h > 0
    ensures t < k
  {
    if k == 0 then -1 else if Served(cfg, cfg.d, k - 1) then k - 1 else Target(cfg, k - 1)
  }

  ghost function StoreAt(cfg: Config, s: Latches, k: nat): Latches
    requires |s.mem| > 0 && cfg.h > 0
  {
    if Target(cfg, k) >= 0 then s.(mem := Write(s.mem, Addr(cfg, cfg.d, Target(cfg, k)), s.last)) else s
  }

  ghost function LoopWord(cfg: Config, s: Latches, k: nat): (r: Latches)
    requires |s.mem| > 0 && cfg.Valid()
    ensures |r.mem| == |s.mem|
  {
    Combine(cfg, StoreAt(cfg, Fetch(Serving(cfg, k), s, k), k), k)
  }

  /** The first k words, the last of them not yet stored. */
  ghost function LoopRun(cfg: Config, s: Latches, k: nat): (r: Latches)
    requires |s.mem| > 0 && cfg.Valid()
    ensures |r.mem| == |s.mem|
  {
    if k == 0 then s else LoopWord(cfg, LoopRun(cfg, s, k - 1), k - 1)
  }

  /** The blit as the loops perform it, whatever the pointers. */
  ghost function Performed(cfg: Config, s: Latches): (r: Latches)
    requires |s.mem| > 0 && cfg.Valid()
    ensures |r.mem| == |s.mem|
  {
    StoreAt(cfg, LoopRun(cfg, s, cfg.Words()), cfg.Words())
  }

  /** What of the registers a word changes. */
  lemma Looped(cfg: Config, w: Latches, k: nat)
    requires cfg.Valid() && |w.mem| > 0
    ensures var e := Serving(cfg, k); var f, n := Fetch(e, w, k), LoopWord(cfg, w, k); var r := Result(cfg, f, k);
      && f.last == w.last && f.zero == w.zero && f.preva == w.preva && f.fc == w.fc
      && n.adat == f.adat && n.cdat == f.cdat && n.bhold == f.bhold && n.prevb == f.prevb
      && n.mem == (if Target(cfg, k) >= 0 then Write(w.mem, Addr(cfg, cfg.d, Target(cfg, k)), w.last) else w.mem)
      && n.preva == Mask(cfg, Col(k, cfg.h), f.adat) && n.last == r.word && n.zero == (w.zero && r.word == Word(0))
      && n.fc == if Col(k, cfg.h) + 1 == cfg.h then cfg.fci else r.carry
  {
    hide Read, Write, Addr, Low, Hold, Mask, Col, BlitFunc, FillWord, Served, Target, Fetch;
    var e := Serving(cfg, k);
    Kept(e, w, k);
    assert Result(cfg, StoreAt(cfg, Fetch(e, w, k), k), k) == Result(cfg, Fetch(e, w, k), k);
  }

  // ---------- pointers that are 0 nowhere ----------

  lemma {:induction false} TargetIsPrevious(cfg: Config, k: nat)
    requires cfg.Valid() && Alive(cfg, cfg.d) && k <= cfg.Words()
    ensures Target(cfg, k) == if cfg.d.on then k - 1 else -1
  {
    hide Served, Alive, Config.Words;
    if cfg.d.on {
      AliveIff(cfg, cfg.d);
    } else if k > 0 {
      TargetIsPrevious(cfg, k - 1);
      NeverServed(cfg, cfg.d, k - 1);
    }
  }

  lemma NeverServed(cfg: Config, ch: Channel, k: nat)
    requires cfg.h > 0 && !ch.on
    ensures !Served(cfg, ch, k)
  {
  }

  lemma ServedAsEnabled(cfg: Config, k: nat)
    requires cfg.Valid() && Live(cfg) && k < cfg.Words()
    ensures Serving(cfg, k) == cfg
  {
    hide Served, Alive, Config.Words;
    forall ch | ch == cfg.a || ch == cfg.b || ch == cfg.c
      ensures Served(cfg, ch, k) == ch.on
    {
      if ch.on {
        AliveIff(cfg, ch);
      } else {
        NeverServed(cfg, ch, k);
      }
    }
  }

  lemma {:induction false} LiveRun(cfg: Config, s: Latches, k: nat)
    requires cfg.Valid() && |s.mem| > 0 && Live(cfg) && k <= cfg.Words()
    ensures LoopRun(cfg, s, k) == Run(cfg, s, k)
  {
    hide Served, Alive, Config.Words, Fetch, Combine, Write, Addr, Target, Serving;
    if k > 0 {
      LiveRun(cfg, s, k - 1);
      ServedAsEnabled(cfg, k - 1);
      TargetIsPrevious(cfg, k - 1);
    }
  }

  /** With no pointer that is 0 where they look, the loops perform the whole blit. */
  lemma LiveIsWhole(cfg: Config, s: Latches)
    requires cfg.Valid() && |s.mem| > 0 && Live(cfg)
    ensures Performed(cfg, s) == Whole(cfg, s)
  {
    hide Alive, Config.Words, Write, Addr, Target, LoopRun, Run;
    LiveRun(cfg, s, cfg.Words());
    TargetIsPrevious(cfg, cfg.Words());
  }

  // ---------- pointers that become 0 ----------

  /** From the word at which channel A is found off, its register keeps what it holds. */
  lemma {:induction false} UnreadA(cfg: Config, s: Latches, m: nat, k: nat)
    requires cfg.Valid() && |s.mem| > 0 && m <= k && !Served(cfg, cfg.a, m)
    ensures LoopRun(cfg, s, k).adat == LoopRun(cfg, s, m).adat
    decreases k
  {
    hide Served, LoopWord, Serving, Fetch;
    if k > m {
      UnreadA(cfg, s, m, k - 1);
      if Served(cfg, cfg.a, k - 1) {
        OffForGood(cfg, cfg.a, m, k - 1);
      }
      SkipA(cfg, LoopRun(cfg, s, k - 1), k - 1);
    }
  }

  lemma SkipA(cfg: Config, w: Latches, k: nat)
    requires cfg.Valid() && |w.mem| > 0 && !Served(cfg, cfg.a, k)
    ensures LoopWord(cfg, w, k).adat == w.adat
  {
    hide Served, LoopWord, Fetch, Read, Addr, Low, Hold, Write, Result, Mask, Col, Target;
    Looped(cfg, w, k);
    Fetched(Serving(cfg, k), w, k);
  }

  /** From the word at which D is found off, every result goes to the place of the last one before it. */
  lemma {:induction false} StuckTarget(cfg: Config, m: nat, k: nat)
    requires cfg.h > 0 && m <= k && !Served(cfg, cfg.d, m)
    ensures Target(cfg, k) == Target(cfg, m)
    decreases k
  {
    hide Served;
    if k > m {
      StuckTarget(cfg, m, k - 1);
      if Served(cfg, cfg.d, k - 1) {
        OffForGood(cfg, cfg.d, m, k - 1);
      }
    }
  }
}
