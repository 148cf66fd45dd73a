/** The low-level instruction scheduler of the JIT: a buffer of up to 100 emitted ops, reordered by hoisting memory
    ops over independent predecessors before they are flushed. */
module LowOptimizer {

  // ---------- ops and what they declare ----------

  const READ: bv8 := 1
  const WRITE: bv8 := 2
  const RMW: bv8 := 3
  const FLOAT: bv8 := 16
  const MAXLOPTINST: nat := 100

  /** The generator function an op calls; one of them is singled out by the dependence test. */
  datatype Handler = RawFflagsSave | Other(id: nat)

  /** One argument: its value (a register number or an immediate) and its declared type bits. */
  datatype Arg = Arg(value: bv32, ty: bv8)

  datatype Inst = Inst(func: Handler, args: seq<Arg>, mem: bv8, flags: bv8)

  predicate ReadsMem(i: Inst) {
    i.mem & READ != 0
  }

  predicate WritesMem(i: Inst) {
    i.mem & WRITE != 0
  }

  predicate UsesMem(i: Inst) {
    i.mem & RMW != 0
  }

  predicate ReadsFlags(i: Inst) {
    i.flags & READ != 0
  }

  predicate WritesFlags(i: Inst) {
    i.flags & WRITE != 0
  }

  predicate UsesFlags(i: Inst) {
    i.flags & RMW != 0
  }

  /** access_reg: some non-float argument names register r with one of the given modes. */
  predicate AccessReg(i: Inst, r: bv32, mode: bv8) {
    exists k :: 0 <= k < |i.args| && ArgAccesses(i.args[k], r, mode)
  }

  predicate ArgAccesses(a: Arg, r: bv32, mode: bv8) {
    a.value == r && a.ty & mode != 0 && a.ty & FLOAT == 0
  }

  predicate HasFloat(i: Inst) {
    exists k :: 0 <= k < |i.args| && i.args[k].ty & FLOAT != 0
  }

  /** The argument loop of depends_on: argument a of one op against all of op j. */
  predicate ArgDepends(a: Arg, j: Inst) {
    if a.ty & WRITE != 0 && a.ty & FLOAT == 0 then AccessReg(j, a.value, RMW)
    else if a.ty & READ != 0 && a.ty & FLOAT == 0 then AccessReg(j, a.value, WRITE)
    else false
  }

  predicate SomeArgDepends(i: Inst, j: Inst) {
    exists k :: 0 <= k < |i.args| && ArgDepends(i.args[k], j)
  }

  /** depends_on (i, j), test by test in the source's order. */
  predicate DependsOn(i: Inst, j: Inst) {
    if WritesMem(i) && UsesMem(j) then true
    else if ReadsMem(i) && WritesMem(j) then true
    else if WritesFlags(i) && UsesFlags(j) then true
    else if ReadsFlags(i) && WritesFlags(j) then true
    else if HasFloat(i) || HasFloat(j) then true
    else if SomeArgDepends(i, j) then true
    else if UsesFlags(j) && UsesFlags(i) then true
    else i.func == RawFflagsSave || j.func == RawFflagsSave
  }

  // ---------- what the emitted code does ----------

  /** The places a generated op may touch. */
  datatype Loc = Reg(r: bv32) | Memory | Flags | Hidden

  /** A machine state gives every place a content. */
  type State = imap<Loc, int>

  ghost predicate Total(s: State) {
    forall l: Loc :: l in s
  }

  ghost predicate Reads(i: Inst, l: Loc) {
    match l
    case Reg(r) => AccessReg(i, r, READ)
    case Memory => ReadsMem(i)
    case Flags => ReadsFlags(i)
    case Hidden => false
  }

  ghost predicate Writes(i: Inst, l: Loc) {
    match l
    case Reg(r) => AccessReg(i, r, WRITE)
    case Memory => WritesMem(i)
    case Flags => WritesFlags(i)
    case Hidden => false
  }

  ghost predicate Touches(i: Inst, l: Loc) {
    Reads(i, l) || Writes(i, l)
  }

  /** Ops with a float argument and raw_fflags_save may do anything. */
  predicate Unrestricted(i: Inst) {
    HasFloat(i) || i.func == RawFflagsSave
  }

  ghost predicate AgreeOn(i: Inst, s: State, t: State)
    requires Total(s) && Total(t)
  {
    forall l: Loc :: Touches(i, l) ==> s[l] == t[l]
  }

  /** The meaning of every op. */
  type Meaning = (Inst, State) -> State

  /** Every restricted op changes only what it declares to write, and what it leaves there depends only on what it
      declares to touch.  (Narrow writes keep the rest of a register, so the old content of a written place counts.) */
  ghost predicate RespectsFootprints(run: Meaning) {
    && (forall i: Inst, s: State {:trigger run(i, s)} :: Total(s) ==> Total(run(i, s)))
    && (forall i: Inst, s: State, l: Loc {:trigger run(i, s)[l]} ::
          Total(s) && Total(run(i, s)) && !Unrestricted(i) && !Writes(i, l) ==> run(i, s)[l] == s[l])
    && (forall i: Inst, s: State, t: State, l: Loc {:trigger run(i, s)[l], run(i, t)[l]} ::
          Total(s) && Total(t) && Total(run(i, s)) && Total(run(i, t)) && !Unrestricted(i) && AgreeOn(i, s, t)
            && Writes(i, l)
          ==> run(i, s)[l] == run(i, t)[l])
  }

  /** The meaning of a stretch of ops. */
  ghost function RunAll(run: Meaning, ops: seq<Inst>, s: State): State {
    if |ops| == 0 then s else RunAll(run, ops[1..], run(ops[0], s))
  }

  // ---------- independence ----------

  lemma ModeBits(b: bv8)
    ensures b & RMW != 0 <==> b & READ != 0 || b & WRITE != 0
  {
  }

  /** depends_on answers no only for ops whose footprints do not conflict. */
  lemma IndependentFootprints(i: Inst, j: Inst, l: Loc)
    requires !DependsOn(i, j)
    ensures !Unrestricted(i) && !Unrestricted(j)
    ensures Writes(i, l) ==> !Touches(j, l)
    ensures Writes(j, l) ==> !Touches(i, l)
  {
    hide HasFloat;
    ModeBits(i.mem);
    ModeBits(j.mem);
    ModeBits(i.flags);
    ModeBits(j.flags);
    if l.Reg? {
      RegisterConflict(i, j, l.r);
    }
  }

  /** The two ops conflict at some place: one writes what the other touches. */
  ghost predicate Conflict(i: Inst, j: Inst, l: Loc) {
    (Writes(i, l) && Touches(j, l)) || (Writes(j, l) && Touches(i, l))
  }

  /** depends_on answers yes exactly for conflicting footprints, for ops that may do anything, and for two users of the
      flags. */
  lemma DependsOnIff(i: Inst, j: Inst)
    ensures DependsOn(i, j) <==>
      Unrestricted(i) || Unrestricted(j) || (UsesFlags(i) && UsesFlags(j)) || exists l: Loc :: Conflict(i, j, l)
  {
    hide HasFloat, AccessReg;
    ModeBits(i.mem);
    ModeBits(j.mem);
    ModeBits(i.flags);
    ModeBits(j.flags);
    if !DependsOn(i, j) {
      forall l: Loc
        ensures !Conflict(i, j, l)
      {
        IndependentFootprints(i, j, l);
      }
    } else if (WritesMem(i) && UsesMem(j)) || (ReadsMem(i) && WritesMem(j)) {
      assert Conflict(i, j, Memory);
    } else if (WritesFlags(i) && UsesFlags(j)) || (ReadsFlags(i) && WritesFlags(j)) {
      assert Conflict(i, j, Flags);
    } else if SomeArgDepends(i, j) {
      var k :| 0 <= k < |i.args| && ArgDepends(i.args[k], j);
      ArgConflict(i, k, j);
    }
  }

  lemma ArgConflict(i: Inst, k: nat, j: Inst)
    requires k < |i.args| && ArgDepends(i.args[k], j)
    ensures Conflict(i, j, Reg(i.args[k].value))
  {
    var a := i.args[k];
    AccessByMode(j, a.value);
    assert a.ty & WRITE != 0 ==> ArgAccesses(i.args[k], a.value, WRITE);
    assert a.ty & READ != 0 ==> ArgAccesses(i.args[k], a.value, READ);
  }

  lemma RegisterConflict(i: Inst, j: Inst, r: bv32)
    requires !SomeArgDepends(i, j)
    ensures AccessReg(i, r, WRITE) ==> !AccessReg(j, r, READ) && !AccessReg(j, r, WRITE)
    ensures AccessReg(j, r, WRITE) ==> !AccessReg(i, r, READ)
  {
    hide AccessReg, ArgAccesses;
    AccessByMode(j, r);
    if AccessReg(i, r, WRITE) {
      var a := Accessor(i, r, WRITE);
      assert AccessReg(j, a.value, RMW) ==> ArgDepends(a, j);
    }
    if AccessReg(i, r, READ) {
      var a := Accessor(i, r, READ);
      assert AccessReg(j, a.value, WRITE) ==> ArgDepends(a, j);
    }
  }

  lemma Accessor(i: Inst, r: bv32, mode: bv8) returns (a: Arg)
    requires AccessReg(i, r, mode)
    ensures a.value == r && a.ty & mode != 0 && a.ty & FLOAT == 0
    ensures exists k :: 0 <= k < |i.args| && i.args[k] == a
  {
    var k :| 0 <= k < |i.args| && ArgAccesses(i.args[k], r, mode);
    a := i.args[k];
  }

  lemma AccessByMode(i: Inst, r: bv32)
    ensures AccessReg(i, r, RMW) <==> AccessReg(i, r, READ) || AccessReg(i, r, WRITE)
  {
    forall k | 0 <= k < |i.args| ensures ArgAccesses(i.args[k], r, RMW) <==>
      ArgAccesses(i.args[k], r, READ) || ArgAccesses(i.args[k], r, WRITE)
    {
      ModeBits(i.args[k].ty);
    }
  }

  /** Independent ops commute. */
  lemma IndependentCommute(run: Meaning, i: Inst, j: Inst, s: State)
    requires RespectsFootprints(run) && Total(s) && !DependsOn(i, j)
    ensures run(i, run(j, s)) == run(j, run(i, s))
  {
    hide DependsOn, Reads, Writes, Unrestricted;
    var si, sj := run(i, s), run(j, s);
    var sji, sij := run(i, sj), run(j, si);
    forall l: Loc ensures sji[l] == sij[l] {
      IndependentFootprints(i, j, l);
      assert AgreeOn(i, s, sj) by {
        forall l: Loc | Touches(i, l) ensures s[l] == sj[l] {
          IndependentFootprints(i, j, l);
        }
      }
      assert AgreeOn(j, s, si) by {
        forall l: Loc | Touches(j, l) ensures s[l] == si[l] {
          IndependentFootprints(i, j, l);
        }
      }
      if Writes(i, l) {
        assert sji[l] == si[l];
      } else if Writes(j, l) {
        assert sij[l] == sj[l];
      }
    }
  }

  // ---------- reorderings ----------

  /** `after` is a permutation p of `before` in which an op overtakes another only if depends_on allows it. */
  ghost predicate Reordering(before: seq<Inst>, after: seq<Inst>, p: seq<nat>) {
    && |p| == |before| == |after|
    && (forall k :: 0 <= k < |p| ==> p[k] < |p| && after[k] == before[p[k]])
    && (forall a, b :: 0 <= a < b < |p| ==> p[a] != p[b])
    && forall a, b :: 0 <= a < b < |p| && p[a] > p[b] ==> !DependsOn(before[p[a]], before[p[b]])
  }

  lemma {:induction false} RunAllConcat(run: Meaning, a: seq<Inst>, b: seq<Inst>, s: State)
    ensures RunAll(run, a + b, s) == RunAll(run, b, RunAll(run, a, s))
    decreases |a|
  {
    if |a| == 0 {
      assert a + b == b;
    } else {
      assert (a + b)[1..] == a[1..] + b;
      RunAllConcat(run, a[1..], b, run(a[0], s));
    }
  }

  lemma {:induction false} RunAllTotal(run: Meaning, a: seq<Inst>, s: State)
    requires RespectsFootprints(run) && Total(s)
    ensures Total(RunAll(run, a, s))
    decreases |a|
  {
    if |a| > 0 {
      RunAllTotal(run, a[1..], run(a[0], s));
    }
  }

  /** An op independent of everything before it may run first. */
  lemma {:induction false} HoistFirst(run: Meaning, pre: seq<Inst>, x: Inst, s: State)
    requires RespectsFootprints(run) && Total(s)
    requires forall k :: 0 <= k < |pre| ==> !DependsOn(x, pre[k])
    ensures RunAll(run, pre + [x], s) == RunAll(run, [x] + pre, s)
    decreases |pre|
  {
    hide DependsOn, RespectsFootprints;
    if |pre| == 0 {
      assert pre + [x] == [x] + pre;
    } else {
      var y, rest := pre[0], pre[1..];
      assert (pre + [x])[1..] == rest + [x] && ([x] + pre)[1..] == pre && ([x] + rest)[1..] == rest;
      RunTotal(run, y, s);
      HoistFirst(run, rest, x, run(y, s));
      IndependentCommute(run, x, y, s);
    }
  }

  lemma RunTotal(run: Meaning, x: Inst, s: State)
    requires RespectsFootprints(run) && Total(s)
    ensures Total(run(x, s))
  {
  }

  /** Any reordering that only swaps independent ops preserves the meaning, from every state. */
  lemma {:induction false} ReorderingPreservesMeaning(run: Meaning, before: seq<Inst>, after: seq<Inst>, p: seq<nat>,
          s: State)
    requires RespectsFootprints(run) && Total(s) && Reordering(before, after, p)
    ensures RunAll(run, after, s) == RunAll(run, before, s)
    decreases |before|
  {
    hide DependsOn, RespectsFootprints;
    if |p| > 0 {
      var m := p[0];
      var pre, x, post := before[..m], before[m], before[m + 1..];
      assert before == pre + [x] + post;
      forall k | 0 <= k < |pre| ensures !DependsOn(x, pre[k]) {
        var b := PositionOf(p, k);
        assert p[0] > p[b] && b > 0;
      }
      RunAllConcat(run, pre + [x], post, s);
      HoistFirst(run, pre, x, s);
      assert ([x] + pre)[1..] == pre;
      RunAllConcat(run, pre, post, run(x, s));
      RunTotal(run, x, s);
      WithoutFirst(before, after, p);
      ReorderingPreservesMeaning(run, pre + post, after[1..], Renumbered(p), run(x, s));
    }
  }

  /** The numbers below n. */
  ghost function Below(n: nat): (r: set<nat>)
    ensures |r| == n && forall x: nat :: x in r <==> x < n
  {
    if n == 0 then {} else Below(n - 1) + {n - 1}
  }

  ghost function Elements(p: seq<nat>): set<nat> {
    set x | x in p
  }

  lemma {:induction false} DistinctElements(p: seq<nat>)
    requires forall a, b :: 0 <= a < b < |p| ==> p[a] != p[b]
    ensures |Elements(p)| == |p|
  {
    if |p| == 0 {
      assert Elements(p) == {};
    } else {
      var rest, last := p[..|p| - 1], p[|p| - 1];
      assert p == rest + [last];
      DistinctElements(rest);
      assert Elements(p) == Elements(rest) + {last};
    }
  }

  lemma {:induction false} Contained(a: set<nat>, b: set<nat>)
    requires a <= b
    ensures |a| <= |b|
  {
    if a != {} {
      var x :| x in a;
      Contained(a - {x}, b - {x});
    }
  }

  /** Every position is hit by a permutation. */
  lemma PositionOf(p: seq<nat>, v: nat) returns (k: nat)
    requires v < |p| && (forall k :: 0 <= k < |p| ==> p[k] < |p|)
    requires forall a, b :: 0 <= a < b < |p| ==> p[a] != p[b]
    ensures k < |p| && p[k] == v
  {
    // otherwise |p| different values would fit into |p| - 1 places
    k := 0;
    if v !in p {
      DistinctElements(p);
      Contained(Elements(p), Below(|p|) - {v});
    } else {
      k :| k < |p| && p[k] == v;
    }
  }

  /** The permutation of the remaining ops once the first one has been taken out. */
  function Renumbered(p: seq<nat>): (q: seq<nat>)
    requires |p| > 0
    ensures |q| == |p| - 1
  {
    seq(|p| - 1, k requires 0 <= k < |p| - 1 => if p[k + 1] > p[0] then p[k + 1] - 1 else p[k + 1])
  }

  lemma WithoutFirst(before: seq<Inst>, after: seq<Inst>, p: seq<nat>)
    requires |p| > 0 && Reordering(before, after, p)
    ensures Reordering(before[..p[0]] + before[p[0] + 1..], after[1..], Renumbered(p))
  {
    hide DependsOn;
    var rest := before[..p[0]] + before[p[0] + 1..];
    var q := Renumbered(p);
    forall k | 0 <= k < |q| ensures q[k] < |q| && rest[q[k]] == before[p[k + 1]] && after[1..][k] == rest[q[k]] {
      assert p[0] != p[k + 1];
    }
    forall a, b | 0 <= a < b < |q| ensures q[a] != q[b] && (q[a] > q[b] ==> !DependsOn(rest[q[a]], rest[q[b]])) {
      assert p[a + 1] != p[b + 1] && p[0] != p[a + 1] && p[0] != p[b + 1];
    }
  }

  // ---------- the buffer ----------

  /** What one run of low_peephole achieves: only memory ops overtake, and by at most four places. */
  ghost predicate Scheduled(before: seq<Inst>, after: seq<Inst>, p: seq<nat>) {
    && Reordering(before, after, p)
    && (forall k :: 0 <= k < |p| ==> p[k] <= k + 4)
    && forall a, b :: 0 <= a < b < |p| && p[a] > p[b] ==> UsesMem(before[p[a]])
  }

  /** s with its element i moved down to position j. */
  function Moved<T>(s: seq<T>, i: nat, j: nat): (t: seq<T>)
    requires j <= i < |s|
    ensures |t| == |s|
  {
    s[..j] + [s[i]] + s[j..i] + s[i + 1..]
  }

  lemma MovedAt<T>(s: seq<T>, i: nat, j: nat, k: nat)
    requires j <= i < |s| && k < |s|
    ensures Origin(i, j, k) < |s| && Moved(s, i, j)[k] == s[Origin(i, j, k)]
  {
  }

  ghost predicate Pending(p: seq<nat>, i: nat) {
    && (forall k :: 0 <= k < |p| && k < i ==> p[k] < i)
    && forall k :: i <= k < |p| ==> p[k] == k
  }

  lemma HoistKeepsSchedule(before: seq<Inst>, now: seq<Inst>, p: seq<nat>, i: nat, j: nat)
    requires Scheduled(before, now, p) && i < |p| && Pending(p, i) && j <= i <= j + 4
    requires UsesMem(now[i]) && forall k :: j <= k < i ==> !DependsOn(now[i], now[k])
    ensures Scheduled(before, Moved(now, i, j), Moved(p, i, j))
    ensures Pending(Moved(p, i, j), i + 1)
  {
    hide DependsOn, UsesMem, Moved, Origin;
    var q, moved := Moved(p, i, j), Moved(now, i, j);
    forall k | 0 <= k < |p|
      ensures Origin(i, j, k) < |p| && q[k] == p[Origin(i, j, k)] && moved[k] == now[Origin(i, j, k)]
      ensures (k <= i ==> Origin(i, j, k) <= i) && (k > i ==> Origin(i, j, k) == k)
      ensures Origin(i, j, k) <= k || (k == j && Origin(i, j, k) == i)
    {
      OriginOf(i, j, k, k);
      MovedAt(p, i, j, k);
      MovedAt(now, i, j, k);
    }
    forall a, b | 0 <= a < b < |q|
      ensures q[a] != q[b]
      ensures q[a] > q[b] ==> !DependsOn(before[q[a]], before[q[b]]) && UsesMem(before[q[a]])
    {
      OriginOf(i, j, a, b);
      var a', b' := Origin(i, j, a), Origin(i, j, b);
      assert q[a] == p[a'] && q[b] == p[b'] && now[a'] == before[p[a']] && now[b'] == before[p[b']];
    }
  }

  /** Where the element at position k came from when element i moved down to j. */
  function Origin(i: nat, j: nat, k: nat): nat {
    if k < j || k > i then k else if k == j then i else k - 1
  }

  /** Elements keep their order, but for the one that moved. */
  lemma OriginOf(i: nat, j: nat, a: nat, b: nat)
    requires j <= i && a <= b
    ensures (a <= i ==> Origin(i, j, a) <= i) && (a > i ==> Origin(i, j, a) == a)
    ensures Origin(i, j, a) <= a || (a == j && Origin(i, j, a) == i)
    ensures a < b ==> Origin(i, j, a) < Origin(i, j, b) || (Origin(i, j, a) == i && j <= Origin(i, j, b) < i)
  {
  }

  // ---------- how far every op goes ----------

  /** Op i of the list goes down to j: not at all if it uses no memory, and else over all ops it does not depend on, but
      over four at most. */
  ghost predicate GoesTo(now: seq<Inst>, i: nat, j: nat) {
    && j <= i < |now|
    && (!UsesMem(now[i]) ==> j == i)
    && (UsesMem(now[i]) ==>
          && i <= j + 4 && (forall k :: j <= k < i ==> !DependsOn(now[i], now[k]))
          && (j == 0 || i == j + 4 || DependsOn(now[i], now[j - 1])))
  }

  ghost predicate StepTo(now: seq<Inst>, i: nat, j: nat, next: seq<Inst>) {
    GoesTo(now, i, j) && next == Moved(now, i, j)
  }

  /** The lists from one op to the next, and where every op goes. */
  ghost predicate Steps(lists: seq<seq<Inst>>, to: seq<nat>) {
    |lists| == |to| + 1 && forall i :: 0 <= i < |to| ==> StepTo(lists[i], i, to[i], lists[i + 1])
  }

  /** One run of low_peephole turns `before` into `after`. */
  ghost predicate Hoisted(before: seq<Inst>, after: seq<Inst>) {
    exists lists: seq<seq<Inst>>, to: seq<nat> ::
      Steps(lists, to) && |to| == |before| && lists[0] == before && lists[|to|] == after
  }

  lemma MovedNowhere<T>(s: seq<T>, i: nat)
    requires i < |s|
    ensures Moved(s, i, i) == s
  {
  }

  lemma IsPlace(now: seq<Inst>, i: nat, j: nat)
    requires j <= i < |now| && (!UsesMem(now[i]) ==> j == i) && i <= j + 4
    requires UsesMem(now[i]) ==>
      (forall k :: j <= k < i ==> !DependsOn(now[i], now[k])) && (j == 0 || i == j + 4 || DependsOn(now[i], now[j - 1]))
    ensures StepTo(now, i, j, Moved(now, i, j))
  {
    hide DependsOn, UsesMem, Moved;
  }

  lemma OneMoreStep(lists: seq<seq<Inst>>, to: seq<nat>, j: nat, next: seq<Inst>)
    requires Steps(lists, to) && StepTo(lists[|to|], |to|, j, next)
    ensures Steps(lists + [next], to + [j])
  {
    hide StepTo;
    var more, i := lists + [next], |to|;
    forall k | 0 <= k < |to + [j]|
      ensures StepTo(more[k], k, (to + [j])[k], more[k + 1])
    {
      if k < i {
        assert more[k] == lists[k] && more[k + 1] == lists[k + 1];
      }
    }
  }

  lemma SameStep(now: seq<Inst>, i: nat, j: nat, next: seq<Inst>, k: nat, other: seq<Inst>)
    requires StepTo(now, i, j, next) && StepTo(now, i, k, other)
    ensures next == other
  {
    hide GoesTo, Moved;
    GoesToOnly(now, i, j, k);
  }

  lemma GoesToOnly(now: seq<Inst>, i: nat, j: nat, k: nat)
    requires GoesTo(now, i, j) && GoesTo(now, i, k)
    ensures j == k
  {
    hide DependsOn, UsesMem;
  }

  lemma {:induction false} SameSteps(lists: seq<seq<Inst>>, to: seq<nat>, others: seq<seq<Inst>>, too: seq<nat>, n: nat)
    requires Steps(lists, to) && Steps(others, too) && lists[0] == others[0] && |to| == |too| && n <= |to|
    ensures lists[n] == others[n]
  {
    hide StepTo;
    if n > 0 {
      SameSteps(lists, to, others, too, n - 1);
      var i := n - 1;
      assert StepTo(lists[i], i, to[i], lists[i + 1]) && StepTo(others[i], i, too[i], others[i + 1]);
      SameStep(lists[i], i, to[i], lists[n], too[i], others[n]);
    }
  }

  /** The result is determined by the buffer. */
  lemma HoistedOnly(before: seq<Inst>, after: seq<Inst>, other: seq<Inst>)
    requires Hoisted(before, after) && Hoisted(before, other)
    ensures after == other
  {
    hide StepTo;
    var lists, to :| Steps(lists, to) && |to| == |before| && lists[0] == before && lists[|to|] == after;
    var others, too :| Steps(others, too) && |too| == |before| && others[0] == before && others[|too|] == other;
    SameSteps(lists, to, others, too, |to|);
  }

  /** A memory op with four independent ops before it moves exactly four places. */
  lemma FourPlaces(now: seq<Inst>, i: nat, j: nat)
    requires GoesTo(now, i, j) && UsesMem(now[i]) && i >= 4
    requires forall k :: i - 4 <= k < i ==> !DependsOn(now[i], now[k])
    ensures j == i - 4
  {
    hide DependsOn, UsesMem;
  }

  /** A memory op goes right behind the nearest op it depends on. */
  lemma BehindDependence(now: seq<Inst>, i: nat, j: nat, k: nat)
    requires GoesTo(now, i, j) && UsesMem(now[i]) && i - 4 <= k < i
    requires DependsOn(now[i], now[k]) && forall m :: k < m < i ==> !DependsOn(now[i], now[m])
    ensures j == k + 1
  {
    hide DependsOn, UsesMem;
  }

  lemma NoStep(now: seq<Inst>)
    ensures Steps([now], [])
  {
  }

  /** A load behind two ops that it does not depend on is generated first. */
  lemma LoadFirst(a: Inst, b: Inst, load: Inst)
    requires !UsesMem(a) && !UsesMem(b) && UsesMem(load) && !DependsOn(load, a) && !DependsOn(load, b)
    ensures Hoisted([a, b, load], [load, a, b])
    ensures forall after :: Hoisted([a, b, load], after) ==> after == [load, a, b]
  {
    hide DependsOn, UsesMem;
    var now, done := [a, b, load], [load, a, b];
    MovedNowhere(now, 0);
    MovedNowhere(now, 1);
    assert Moved(now, 2, 0) == done;
    assert StepTo(now, 0, 0, now) && StepTo(now, 1, 1, now) && StepTo(now, 2, 0, done);
    assert Steps([now, now, now, done], [0, 1, 0]);
    forall after | Hoisted(now, after)
      ensures after == [load, a, b]
    {
      HoistedOnly(now, after, [load, a, b]);
    }
  }

  /** Two op lists with the same effect under every meaning that respects the declared footprints. */
  ghost predicate SameMeaning(a: seq<Inst>, b: seq<Inst>) {
    forall run: Meaning, s: State :: RespectsFootprints(run) && Total(s) ==> RunAll(run, a, s) == RunAll(run, b, s)
  }

  lemma ScheduledSameMeaning(before: seq<Inst>, after: seq<Inst>, p: seq<nat>)
    requires Scheduled(before, after, p)
    ensures SameMeaning(after, before)
  {
    hide Reordering, RespectsFootprints;
    forall run: Meaning, s: State | RespectsFootprints(run) && Total(s)
      ensures RunAll(run, after, s) == RunAll(run, before, s)
    {
      ReorderingPreservesMeaning(run, before, after, p, s);
    }
  }

  lemma SameMeaningExtends(pre: seq<Inst>, a: seq<Inst>, b: seq<Inst>, post: seq<Inst>)
    requires SameMeaning(a, b)
    ensures SameMeaning(pre + a + post, pre + b + post)
  {
    hide RespectsFootprints;
    forall run: Meaning, s: State | RespectsFootprints(run) && Total(s)
      ensures RunAll(run, pre + a + post, s) == RunAll(run, pre + b + post, s)
    {
      RunAllConcat(run, pre + a, post, s);
      RunAllConcat(run, pre + b, post, s);
      RunAllConcat(run, pre, a, s);
      RunAllConcat(run, pre, b, s);
      RunAllTotal(run, pre, s);
    }
  }

  class Optimizer {
    /** The buffer.  The source leaves stale arguments behind the nargs in use; nothing reads them. */
    var linst: array<Inst>
    var loptIndex: nat
    /** The generator calls made so far. */
    var emitted: seq<Inst>
    /** The ops handed in so far, in program order. */
    ghost var stored: seq<Inst>

    ghost predicate Valid()
      reads this, linst
    {
      && linst.Length == MAXLOPTINST && loptIndex < MAXLOPTINST
      && SameMeaning(emitted + linst[..loptIndex], stored)
    }

    constructor ()
      ensures Valid() && stored == [] && emitted == [] && loptIndex == 0 && fresh(linst)
    {
      linst := new Inst[MAXLOPTINST](_ => Inst(RawFflagsSave, [], 0, 0));
      loptIndex := 0;
      emitted := [];
      stored := [];
    }

    /** low_peephole: hoist every memory op over up to four independent predecessors. */
    method LowPeephole() returns (ghost p: seq<nat>)
      requires loptIndex <= linst.Length
      modifies linst
      ensures Scheduled(old(linst[..loptIndex]), linst[..loptIndex], p)
      ensures Hoisted(old(linst[..loptIndex]), linst[..loptIndex])
    {
      hide DependsOn, UsesMem, Scheduled, Moved, StepTo;
      ghost var before := linst[..loptIndex];
      p := seq(loptIndex, k => k);
      Unmoved(before, p);
      ghost var lists, to: seq<nat> := [before], [];
      NoStep(before);
      for i := 0 to loptIndex
        invariant Scheduled(before, linst[..loptIndex], p) && |p| == loptIndex && Pending(p, i)
        invariant Steps(lists, to) && |to| == i && |lists| == i + 1
        invariant lists[0] == before && lists[i] == linst[..loptIndex]
      {
        ghost var now := linst[..loptIndex];
        ghost var place := i;
        if UsesMem(linst[i]) {
          var j := i - 1;
          while j >= i - 4 && j >= 0 && !DependsOn(linst[i], linst[j])
            invariant i - 5 <= j < i && -1 <= j
            invariant forall k :: j < k < i ==> !DependsOn(linst[i], linst[k])
          {
            j := j - 1;
          }
          place := j + 1;
          if j != i - 1 {
            var x := linst[i];
            j := j + 1;
            ShiftDown(i, j, x);
            assert linst[..loptIndex] == Moved(now, i, j);
            HoistKeepsSchedule(before, now, p, i, j);
            p := Moved(p, i, j);
          }
        }
        MovedNowhere(now, i);
        IsPlace(now, i, place);
        OneMoreStep(lists, to, place, linst[..loptIndex]);
        lists, to := lists + [linst[..loptIndex]], to + [place];
      }
    }

    /** The inner shifting loop of low_peephole. */
    method ShiftDown(i: nat, j: nat, x: Inst)
      requires j < i < loptIndex <= linst.Length && x == linst[i]
      modifies linst
      ensures linst[..loptIndex] == Moved(old(linst[..loptIndex]), i, j)
    {
      var k := i;
      while k > j
        invariant j <= k <= i
        invariant forall m :: 0 <= m < loptIndex ==> linst[m] == if k < m <= i then old(linst[m - 1]) else old(linst[m])
      {
        linst[k] := linst[k - 1];
        k := k - 1;
      }
      linst[j] := x;
    }

    /** lopt_emit_all: reorder, generate everything, empty the buffer. */
    method EmitAll()
      requires linst.Length == MAXLOPTINST && loptIndex <= MAXLOPTINST
      requires SameMeaning(emitted + linst[..loptIndex], stored)
      modifies this`loptIndex, this`emitted, linst
      ensures Valid() && loptIndex == 0 && SameMeaning(emitted, stored)
      ensures |emitted| == |old(emitted)| + old(loptIndex) && old(emitted) <= emitted
      ensures Hoisted(old(linst[..loptIndex]), emitted[|old(emitted)|..])
    {
      hide SameMeaning, Scheduled, Hoisted;
      ghost var before, e0 := linst[..loptIndex], emitted;
      ghost var p := LowPeephole();
      ghost var after := linst[..loptIndex];
      ScheduledSameMeaning(before, after, p);
      for i := 0 to loptIndex
        invariant loptIndex == |after| && linst[..loptIndex] == after
        invariant emitted == e0 + after[..i]
      {
        emitted := emitted + [linst[i]];
      }
      assert after[..loptIndex] == after;
      SameMeaningExtends(e0, after, before, []);
      assert e0 + after + [] == e0 + after && e0 + before + [] == e0 + before;
      Chain(emitted, e0 + before, stored);
      assert emitted[|e0|..] == after;
      loptIndex := 0;
      assert emitted + linst[..0] == emitted;
    }

    /** lopt_store_op0 .. lopt_store_op5, and low_advance: a full buffer is flushed at once. */
    method StoreOp(func: Handler, args: seq<Arg>, mem: bv8, flags: bv8)
      requires Valid() && |args| <= 5
      modifies this, linst
      ensures Valid() && linst == old(linst) && stored == old(stored) + [Inst(func, args, mem, flags)]
      ensures loptIndex == if old(loptIndex) == 99 then 0 else old(loptIndex) + 1
      ensures var ops := old(linst[..loptIndex]) + [Inst(func, args, mem, flags)];
        if old(loptIndex) == 99 then
          old(emitted) <= emitted && Hoisted(ops, emitted[|old(emitted)|..])
        else emitted == old(emitted) && linst[..loptIndex] == ops
    {
      hide SameMeaning, Hoisted;
      ghost var buffered, op := linst[..loptIndex], Inst(func, args, mem, flags);
      linst[loptIndex] := Inst(func, args, mem, flags);
      SameMeaningExtends([], emitted + buffered, stored, [op]);
      assert [] + (emitted + buffered) + [op] == emitted + linst[..loptIndex + 1];
      assert [] + stored + [op] == stored + [op];
      stored := stored + [op];
      loptIndex := loptIndex + 1;
      assert linst[..loptIndex] == buffered + [op];
      if loptIndex == MAXLOPTINST {
        EmitAll();
      }
    }

    /** empty_low_optimizer: afterwards the generated code means what the stored program means. */
    method EmptyLowOptimizer()
      requires Valid()
      modifies this`loptIndex, this`emitted, linst
      ensures Valid() && loptIndex == 0 && SameMeaning(emitted, stored)
      ensures old(emitted) <= emitted && Hoisted(old(linst[..loptIndex]), emitted[|old(emitted)|..])
    {
      hide Hoisted;
      EmitAll();
    }
  }

  lemma Unmoved(before: seq<Inst>, p: seq<nat>)
    requires |p| == |before| && forall k :: 0 <= k < |p| ==> p[k] == k
    ensures Scheduled(before, before, p) && Pending(p, 0)
  {
  }

  lemma Chain(a: seq<Inst>, b: seq<Inst>, c: seq<Inst>)
    requires SameMeaning(a, b) && SameMeaning(b, c)
    ensures SameMeaning(a, c)
  {
    hide RespectsFootprints;
    forall run: Meaning, s: State | RespectsFootprints(run) && Total(s) ensures RunAll(run, a, s) == RunAll(run, c, s) {
      assert RunAll(run, a, s) == RunAll(run, b, s);
    }
  }
}
