/** Copies from A to D whose source pointer is or becomes 0: the fast blitter goes on with what the A register holds. */
module PlainCopies {
  import opened BlitterWords
  import opened Blit
  import opened FastBlit
  import opened RegisterBlits

  /** With minterm 0xF0 and no shift the result is A. */
  lemma PlainWord(desc: bool, prev: Word, a: Word, b: Long, c: Long)
    ensures Low(BlitFunc(Hold(desc, prev, a, 0), b, c, 0xF0)) == a
  {
  }

  /** Every word is what A holds. */
  ghost predicate TakesA(cfg: Config) {
    && cfg.Valid() && cfg.ashift == 0 && cfg.mt == 0xF0
    && cfg.afwm == Word(0xFFFF) && cfg.alwm == Word(0xFFFF)
  }

  lemma TakenWord(cfg: Config, w: Latches, k: nat)
    requires TakesA(cfg)
    ensures Unfilled(cfg, w, k) == w.adat
  {
    hide BlitFunc, Low, Hold, Col, And;
    Open(w.adat);
    PlainWord(cfg.desc, w.preva, w.adat, Wide(w.bhold), Wide(w.cdat));
  }

  lemma Open(w: Word)
    ensures And(w, Word(0xFFFF)) == w
  {
  }

  /** A plain copy in either direction, of any size, to places apart from those it reads; D's pointer is not 0. */
  ghost predicate Copies(cfg: Config, size: nat)
    requires size > 0
  {
    && cfg.Valid() && TakesA(cfg) && cfg.a.on && !cfg.b.on && !cfg.c.on && cfg.d.on && !cfg.fill && Alive(cfg, cfg.d)
    && forall j: nat, k: nat :: j < cfg.Words() && k < cfg.Words() ==> SourcePlace(cfg, size, j) != Place(cfg, size, k)
  }

  function SourcePlace(cfg: Config, size: nat, k: nat): (c: nat)
    requires cfg.h > 0 && size > 0
    ensures c < size
  {
    Cell(size, Addr(cfg, cfg.a, k))
  }

  /** The words that are to be copied. */
  function Sources(cfg: Config, mem: seq<Word>, n: nat): (ws: seq<Word>)
    requires cfg.h > 0 && |mem| > 0
    ensures |ws| == n
  {
    seq(n, k requires 0 <= k < n => mem[SourcePlace(cfg, |mem|, k)])
  }

  /** How many of the first n words a channel is served for. */
  ghost function ServedWords(cfg: Config, ch: Channel, n: nat): (m: nat)
    requires cfg.h > 0
    ensures m <= n
  {
    if n == 0 then 0 else if Served(cfg, ch, n - 1) then n else ServedWords(cfg, ch, n - 1)
  }

  /** They are the first ones. */
  lemma {:induction false} ServedFirst(cfg: Config, ch: Channel, n: nat, k: nat)
    requires cfg.h > 0 && k < n
    ensures Served(cfg, ch, k) <==> k < ServedWords(cfg, ch, n)
  {
    hide Served;
    if Served(cfg, ch, n - 1) {
      OffForGood(cfg, ch, k, n - 1);
    } else if k < n - 1 {
      ServedFirst(cfg, ch, n - 1, k);
    }
  }

  /** What the A register holds when the channel has been served for m words. */
  function Held(cfg: Config, s: Latches, m: nat): Word
    requires cfg.h > 0 && |s.mem| > 0
  {
    if m == 0 then s.adat else s.mem[SourcePlace(cfg, |s.mem|, m - 1)]
  }

  /** The words the fast engine stores. */
  function Taken(cfg: Config, s: Latches, m: nat, n: nat): (ws: seq<Word>)
    requires cfg.h > 0 && |s.mem| > 0
    ensures |ws| == n
  {
    seq(n, k requires 0 <= k < n => if k < m then s.mem[SourcePlace(cfg, |s.mem|, k)] else Held(cfg, s, m))
  }

  /** A copy does not overwrite what it is still to read. */
  lemma SourceKept(cfg: Config, mem: seq<Word>, ws: seq<Word>, k: nat)
    requires |mem| > 0 && Copies(cfg, |mem|) && k < cfg.Words() && |ws| <= cfg.Words()
    ensures Read(Written(cfg, mem, ws), Addr(cfg, cfg.a, k)) == mem[SourcePlace(cfg, |mem|, k)]
  {
    hide Config.Words, Place, Addr, TakesA, Alive, Cell;
    ElsewhereKept(cfg, mem, ws, SourcePlace(cfg, |mem|, k));
  }

  /** Memory once all but the last of the first k words are stored, and the last of them. */
  ghost predicate Copied(cfg: Config, mem: seq<Word>, w: Latches, ws: seq<Word>)
    requires cfg.h > 0 && |mem| > 0
  {
    if |ws| == 0 then w.mem == mem else
      w.mem == Written(cfg, mem, ws[..|ws| - 1]) && w.last == ws[|ws| - 1]
  }

  /** One more word copied. */
  lemma CopiedOn(cfg: Config, mem: seq<Word>, w: Latches, n: Latches, ws: seq<Word>, word: Word)
    requires cfg.Valid() && |mem| > 0 && |w.mem| == |mem| && Copied(cfg, mem, w, ws)
    requires n.mem == if |ws| > 0 then Write(w.mem, Addr(cfg, cfg.d, |ws| - 1), w.last) else w.mem
    requires n.last == word
    ensures Copied(cfg, mem, n, ws + [word])
  {
    hide Write, Addr;
    assert (ws + [word])[..|ws|] == ws;
    if |ws| > 0 {
      OneMoreWritten(cfg, mem, ws[..|ws| - 1], ws[|ws| - 1]);
      assert ws[..|ws| - 1] + [ws[|ws| - 1]] == ws;
    }
  }

  /** Where the next word is read from, nothing has been stored yet. */
  lemma StillThere(cfg: Config, mem: seq<Word>, w: Latches, ws: seq<Word>, k: nat)
    requires |mem| > 0 && Copies(cfg, |mem|) && k < cfg.Words() && |ws| <= cfg.Words() && Copied(cfg, mem, w, ws)
    ensures |w.mem| == |mem| && Read(w.mem, Addr(cfg, cfg.a, k)) == mem[SourcePlace(cfg, |mem|, k)]
  {
    hide Copies, Addr, SourcePlace, Read, Config.Words;
    SourceKept(cfg, mem, if |ws| == 0 then [] else ws[..|ws| - 1], k);
  }

  /** The cycle exact engine copies every word. */
  lemma {:induction false} CopyRun(cfg: Config, s: Latches, k: nat)
    requires |s.mem| > 0 && Copies(cfg, |s.mem|) && k <= cfg.Words()
    ensures Copied(cfg, s.mem, Run(cfg, s, k), Sources(cfg, s.mem, k))
  {
    hide Copied, OneWord, Fetch, SourcePlace, Read, Write, Addr, Mask, Unfilled, Col, Config.Words, Alive, TakesA;
    if k == 0 {
      NothingCopied(cfg, s.mem, s, Sources(cfg, s.mem, 0));
    } else {
      var n := k - 1;
      var w := Run(cfg, s, n);
      CopyRun(cfg, s, n);
      StillThere(cfg, s.mem, w, Sources(cfg, s.mem, n), n);
      Fetched(cfg, w, n);
      Combined(cfg, w, n);
      TakenWord(cfg, Fetch(cfg, w, n), n);
      CopiedOn(cfg, s.mem, w, OneWord(cfg, w, n), Sources(cfg, s.mem, n), s.mem[SourcePlace(cfg, |s.mem|, n)]);
      assert Sources(cfg, s.mem, k) == Sources(cfg, s.mem, n) + [s.mem[SourcePlace(cfg, |s.mem|, n)]];
    }
  }

  lemma NothingCopied(cfg: Config, mem: seq<Word>, w: Latches, ws: seq<Word>)
    requires cfg.h > 0 && |mem| > 0 && w.mem == mem && |ws| == 0
    ensures Copied(cfg, mem, w, ws)
  {
  }

  /** One word of the loops: A is read if it is served, and what its register then holds is the result. */
  lemma LoopTakes(cfg: Config, w: Latches, k: nat)
    requires |w.mem| > 0 && Copies(cfg, |w.mem|) && k < cfg.Words()
    ensures var n := LoopWord(cfg, w, k);
      && n.adat == (if Served(cfg, cfg.a, k) then Read(w.mem, Addr(cfg, cfg.a, k)) else w.adat) && n.last == n.adat
      && n.mem == if k > 0 then Write(w.mem, Addr(cfg, cfg.d, k - 1), w.last) else w.mem
  {
    hide LoopWord, Fetch, SourcePlace, Read, Write, Addr, Mask, Unfilled, Col, Config.Words, Alive, TakesA, Served,
         Target;
    SameAddr(cfg, k);
    Fetched(Serving(cfg, k), w, k);
    Looped(cfg, w, k);
    TakenWord(cfg, Fetch(Serving(cfg, k), w, k), k);
    TargetIsPrevious(cfg, k);
  }

  /** The fast engine copies the words it is served for, and then goes on with the last of them. */
  lemma {:induction false} CopyLoops(cfg: Config, s: Latches, k: nat)
    requires |s.mem| > 0 && Copies(cfg, |s.mem|) && k <= cfg.Words()
    ensures var m := ServedWords(cfg, cfg.a, cfg.Words()); var w := LoopRun(cfg, s, k);
      Copied(cfg, s.mem, w, Taken(cfg, s, m, k)) && w.adat == Held(cfg, s, if k < m then k else m)
  {
    hide Copied, LoopWord, SourcePlace, Read, Write, Addr, Config.Words, Alive, TakesA, Served, ServedWords;
    var m := ServedWords(cfg, cfg.a, cfg.Words());
    if k == 0 {
      NothingCopied(cfg, s.mem, s, Taken(cfg, s, m, 0));
    } else {
      var n := k - 1;
      var w := LoopRun(cfg, s, n);
      CopyLoops(cfg, s, n);
      StillThere(cfg, s.mem, w, Taken(cfg, s, m, n), n);
      ServedFirst(cfg, cfg.a, cfg.Words(), n);
      LoopTakes(cfg, w, n);
      var word := if n < m then s.mem[SourcePlace(cfg, |s.mem|, n)] else Held(cfg, s, m);
      CopiedOn(cfg, s.mem, w, LoopWord(cfg, w, n), Taken(cfg, s, m, n), word);
      assert Taken(cfg, s, m, k) == Taken(cfg, s, m, n) + [word];
    }
  }

  lemma AllCopied(cfg: Config, mem: seq<Word>, w: Latches, ws: seq<Word>)
    requires cfg.h > 0 && |mem| > 0 && |ws| > 0 && Copied(cfg, mem, w, ws)
    ensures |w.mem| == |mem| && Write(w.mem, Addr(cfg, cfg.d, |ws| - 1), w.last) == Written(cfg, mem, ws)
  {
    hide Write, Addr;
  }

  lemma CopiedExactly(cfg: Config, s: Latches)
    requires |s.mem| > 0 && Copies(cfg, |s.mem|)
    ensures Exact(cfg, s).mem == Written(cfg, s.mem, Sources(cfg, s.mem, cfg.Words()))
  {
    hide Copied, Run, Sources, Write, Addr, TakesA, Alive, Place, SourcePlace, Config.Words, Written;
    CopyRun(cfg, s, cfg.Words());
    WordCount(cfg);
    AllCopied(cfg, s.mem, Run(cfg, s, cfg.Words()), Sources(cfg, s.mem, cfg.Words()));
  }

  lemma CopiedFast(cfg: Config, s: Latches)
    requires |s.mem| > 0 && Copies(cfg, |s.mem|)
    ensures var m := ServedWords(cfg, cfg.a, cfg.Words());
      Performed(cfg, s).mem == Written(cfg, s.mem, Taken(cfg, s, m, cfg.Words()))
  {
    hide Copied, LoopRun, Taken, Write, Addr, TakesA, Alive, Place, SourcePlace, Config.Words, Written, ServedWords,
         Target;
    WordCount(cfg);
    var n, m := cfg.Words(), ServedWords(cfg, cfg.a, cfg.Words());
    CopyLoops(cfg, s, n);
    TargetIsPrevious(cfg, n);
    AllCopied(cfg, s.mem, LoopRun(cfg, s, n), Taken(cfg, s, m, n));
  }

  /** From the first word that A is not served for, every word that is not overwritten is what the A register holds. */
  ghost predicate RestIsHeld(cfg: Config, s: Latches)
    requires cfg.h > 0 && |s.mem| > 0
  {
    var m := ServedWords(cfg, cfg.a, cfg.Words());
    forall k: nat :: m <= k < cfg.Words() && Remains(cfg, |s.mem|, k, cfg.Words()) ==>
      s.mem[SourcePlace(cfg, |s.mem|, k)] == Held(cfg, s, m)
  }

  /** Both engines leave the same memory if and only if that is what they should copy. */
  lemma CopyIff(cfg: Config, s: Latches)
    requires |s.mem| > 0 && Copies(cfg, |s.mem|)
    ensures Performed(cfg, s).mem == Exact(cfg, s).mem <==> RestIsHeld(cfg, s)
  {
    hide Performed, Exact, SourcePlace, Remains, Written, Config.Words, ServedWords, TakesA, Alive;
    var n, m := cfg.Words(), ServedWords(cfg, cfg.a, cfg.Words());
    CopiedExactly(cfg, s);
    CopiedFast(cfg, s);
    SameMemoryIff(cfg, s.mem, Taken(cfg, s, m, n), Sources(cfg, s.mem, n));
  }

  /** A copy from address 0: no word is read, and all are what the A register held before. */
  lemma CopyFromZeroIff(cfg: Config, s: Latches)
    requires |s.mem| > 0 && Copies(cfg, |s.mem|) && cfg.a.ptr == 0
    ensures !Live(cfg)
    ensures Performed(cfg, s).mem == Exact(cfg, s).mem <==>
      forall k: nat :: k < cfg.Words() && Remains(cfg, |s.mem|, k, cfg.Words()) ==>
        s.mem[SourcePlace(cfg, |s.mem|, k)] == s.adat
  {
    hide Performed, Exact, SourcePlace, Remains, Config.Words, ServedWords, Served;
    PtrStart(cfg.a, cfg.desc);
    FirstWord(cfg.h);
    WordCount(cfg);
    assert Addr(cfg, cfg.a, 0) == 0;
    assert !Served(cfg, cfg.a, 0) by { NotServed(cfg, cfg.a, 0); }
    ServedFirst(cfg, cfg.a, cfg.Words(), 0);
    CopyIff(cfg, s);
  }

  lemma NotServed(cfg: Config, ch: Channel, k: nat)
    requires cfg.h > 0 && Addr(cfg, ch, k) == 0
    ensures !Served(cfg, ch, k)
  {
  }
}
