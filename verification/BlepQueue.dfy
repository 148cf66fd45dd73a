/** The queue of recent output transitions of one audio channel, from which band-limited steps are mixed. */
module BlepQueue {

  /** SINC_QUEUE_MAX_AGE and SINC_QUEUE_LENGTH. */
  const MAX_AGE: nat := 2048
  const LENGTH: nat := 130

  /** A queue entry: ticks since the transition and its size. */
  datatype Entry = Entry(age: nat, output: int)

  // ---------- reference: everything that ever happened ----------

  /** The output changed at this time. */
  datatype Transition = Transition(at: nat, before: int, after: int)

  /** All transitions, newest first, the time, and whether the newest was made in the last step. */
  datatype Past = Past(changes: seq<Transition>, now: nat, made: bool)

  /** One call: the output is set, then the time passes. */
  function After(p: Past, state: int, time: nat, output: int): Past {
    if output != state then Past([Transition(p.now, state, output)] + p.changes, p.now + time, true)
    else Past(p.changes, p.now + time, false)
  }

  /** The transitions lie in the past, newest first, and each starts from the level the one before it left. */
  ghost predicate Consistent(p: Past, state: int) {
    && (forall i, j :: 0 <= i < j < |p.changes| ==> p.changes[j].at <= p.changes[i].at)
    && (forall i :: 0 <= i < |p.changes| ==> p.changes[i].at <= p.now)
    && (forall i, j :: 0 <= i && j == i + 1 && j < |p.changes| ==> p.changes[i].before == p.changes[j].after)
    && (|p.changes| > 0 ==> p.changes[0].after == state)
    && (p.made ==> |p.changes| > 0)
  }

  lemma StaysConsistent(p: Past, state: int, time: nat, output: int)
    requires Consistent(p, state)
    ensures Consistent(After(p, state, time, output), output)
  {
  }

  function EntryOf(t: Transition, now: nat): Entry
    requires t.at <= now
  {
    Entry(now - t.at, t.after - t.before)
  }

  /** The number of transitions younger than MAX_AGE. */
  function Young(changes: seq<Transition>, now: nat): (n: nat)
    requires forall i :: 0 <= i < |changes| ==> changes[i].at <= now
    ensures n <= |changes|
  {
    if |changes| == 0 || now - changes[0].at >= MAX_AGE then 0 else 1 + Young(changes[1..], now)
  }

  /** Young counts exactly them: transition i is younger than MAX_AGE if and only if i is below the count. */
  lemma {:induction false} YoungIff(changes: seq<Transition>, now: nat, i: nat)
    requires forall i, j :: 0 <= i < j < |changes| ==> changes[j].at <= changes[i].at
    requires forall i :: 0 <= i < |changes| ==> changes[i].at <= now
    requires i < |changes|
    ensures now - changes[i].at < 2048 <==> i < Young(changes, now)
  {
    if i > 0 {
      YoungIff(changes[1..], now, i - 1);
    }
  }

  /** How many transitions the queue holds: the young ones, at most LENGTH of them; the one just made is kept whatever
      its age. */
  function Held(p: Past): nat
    requires forall i :: 0 <= i < |p.changes| ==> p.changes[i].at <= p.now
    requires p.made ==> |p.changes| > 0
  {
    var young := if p.made then 1 + Young(p.changes[1..], p.now) else Young(p.changes, p.now);
    if young > LENGTH then LENGTH else young
  }

  /** The queue holds the newest transitions, newest first. */
  ghost predicate Mirrors(queue: seq<Entry>, p: Past, state: int) {
    && Consistent(p, state) && |queue| == Held(p) && |queue| <= |p.changes|
    && forall i :: 0 <= i < |queue| ==> queue[i] == EntryOf(p.changes[i], p.now)
  }

  function Sum(queue: seq<Entry>): int {
    if |queue| == 0 then 0 else Sum(queue[..|queue| - 1]) + queue[|queue| - 1].output
  }

  /** The level just before the oldest transition in the queue. */
  function Base(p: Past, state: int, n: nat): int
    requires n <= |p.changes|
  {
    if n == 0 then state else p.changes[n - 1].before
  }

  lemma {:induction false} PrefixSum(queue: seq<Entry>, p: Past, state: int)
    requires Consistent(p, state) && |queue| <= |p.changes|
    requires forall i :: 0 <= i < |queue| ==> queue[i] == EntryOf(p.changes[i], p.now)
    ensures state - Sum(queue) == Base(p, state, |queue|)
    decreases |queue|
  {
    if |queue| > 0 {
      PrefixSum(queue[..|queue| - 1], p, state);
    }
  }

  /** The output less all queued steps is the level before the oldest of them. */
  lemma StateLessQueue(queue: seq<Entry>, p: Past, state: int)
    requires Mirrors(queue, p, state)
    ensures state - Sum(queue) == Base(p, state, |queue|)
  {
    PrefixSum(queue, p, state);
  }

  /** Ages never decrease along the queue, and only the transition just made can be as old as MAX_AGE. */
  lemma AgesInOrder(queue: seq<Entry>, p: Past, state: int)
    requires Mirrors(queue, p, state)
    ensures forall i, j :: 0 <= i < j < |queue| ==> queue[i].age <= queue[j].age
    ensures forall i :: 0 <= i < |queue| && (i > 0 || !p.made) ==> queue[i].age < MAX_AGE
  {
    forall i | 0 <= i < |queue| && (i > 0 || !p.made) ensures queue[i].age < MAX_AGE {
      if p.made {
        YoungIff(p.changes[1..], p.now, i - 1);
      } else {
        YoungIff(p.changes, p.now, i);
      }
    }
  }

  /** After a step all ages are below MAX_AGE if and only if the step was shorter or changed nothing. */
  lemma AgesBoundedIff(queue: seq<Entry>, p: Past, state: int, time: nat, output: int)
    requires Consistent(p, state) && Mirrors(queue, After(p, state, time, output), output)
    ensures (forall i :: 0 <= i < |queue| ==> queue[i].age < MAX_AGE) <==> (time < MAX_AGE || output == state)
  {
    AgesInOrder(queue, After(p, state, time, output), output);
    if output != state {
      assert queue[0].age == time;
    }
  }

  // ---------- the queue itself ----------

  /** Every entry grows older; the first that reaches MAX_AGE ends the queue. */
  function Aged(queue: seq<Entry>, time: nat): (r: seq<Entry>)
    ensures |r| <= |queue|
  {
    if |queue| == 0 || queue[0].age + time >= MAX_AGE then [] else
      [queue[0].(age := queue[0].age + time)] + Aged(queue[1..], time)
  }

  /** The entries before the first that gets too old, each aged. */
  lemma {:induction false} AgedIs(queue: seq<Entry>, time: nat, r: seq<Entry>)
    requires |r| <= |queue| && (|r| < |queue| ==> queue[|r|].age + time >= MAX_AGE)
    requires forall i :: 0 <= i < |r| ==> r[i] == queue[i].(age := queue[i].age + time) && r[i].age < MAX_AGE
    ensures r == Aged(queue, time)
  {
    if |r| > 0 {
      AgedIs(queue[1..], time, r[1..]);
    }
  }

  function Less(a: nat, b: nat): nat {
    if a < b then a else b
  }

  lemma {:induction false} AgedMirrors(queue: seq<Entry>, changes: seq<Transition>, now: nat, time: nat)
    requires |queue| <= |changes| && forall i :: 0 <= i < |changes| ==> changes[i].at <= now
    requires forall i :: 0 <= i < |queue| ==> queue[i] == EntryOf(changes[i], now)
    ensures var r := Aged(queue, time);
      && |r| == Less(|queue|, Young(changes, now + time))
      && forall i :: 0 <= i < |r| ==> r[i] == EntryOf(changes[i], now + time)
  {
    if |queue| > 0 {
      AgedMirrors(queue[1..], changes[1..], now, time);
    }
  }

  /** As time passes fewer transitions are young. */
  lemma {:induction false} YoungShrinks(changes: seq<Transition>, now: nat, time: nat)
    requires forall i :: 0 <= i < |changes| ==> changes[i].at <= now
    ensures Young(changes, now + time) <= Young(changes, now)
  {
    if |changes| > 0 {
      YoungShrinks(changes[1..], now, time);
    }
  }

  /** Ageing the queue leaves the young transitions, at most LENGTH of them. */
  lemma AgedHolds(queue: seq<Entry>, p: Past, state: int, time: nat)
    requires Mirrors(queue, p, state)
    ensures var r := Aged(queue, time);
      && |r| == Less(LENGTH, Young(p.changes, p.now + time))
      && forall i :: 0 <= i < |r| ==> r[i] == EntryOf(p.changes[i], p.now + time)
  {
    AgedMirrors(queue, p.changes, p.now, time);
    YoungShrinks(p.changes, p.now, time);
    if p.made {
      YoungShrinks(p.changes[1..], p.now, time);
    }
  }

  /** The queue after a call. */
  function Handled(queue: seq<Entry>, state: int, time: nat, output: int): seq<Entry> {
    var aged := Aged(queue, time);
    if output == state then aged else [Entry(time, output - state)] + aged[..Less(|aged|, LENGTH - 1)]
  }

  /** One call keeps the queue equal to the newest transitions younger than MAX_AGE, at most LENGTH of them. */
  lemma HandledMirrors(queue: seq<Entry>, p: Past, state: int, time: nat, output: int)
    requires Mirrors(queue, p, state)
    ensures Mirrors(Handled(queue, state, time, output), After(p, state, time, output), output)
  {
    hide Aged, Young;
    AgedHolds(queue, p, state, time);
    StaysConsistent(p, state, time, output);
    var q, r := After(p, state, time, output), Handled(queue, state, time, output);
    if output != state {
      assert q.changes[1..] == p.changes;
      forall i | 0 <= i < |r| ensures r[i] == EntryOf(q.changes[i], q.now) {
        if i > 0 {
          assert r[i] == Aged(queue, time)[i - 1] && q.changes[i] == p.changes[i - 1];
        }
      }
    }
  }

  /** A call with a step that is too long: one entry, as old as the step. */
  lemma LongStep(time: nat, output: int)
    requires time >= MAX_AGE && output != 0
    ensures Mirrors([], Past([], 0, false), 0)
    ensures Handled([], 0, time, output) == [Entry(time, output)] && Handled([], 0, time, output)[0].age >= MAX_AGE
  {
    assert Aged([], time) == [];
  }

  // ---------- whole runs ----------

  /** One call of the handlers: so many ticks, and the output at their beginning. */
  datatype Step = Step(time: nat, output: int)

  function StateAfter(steps: seq<Step>): int {
    if |steps| == 0 then 0 else steps[|steps| - 1].output
  }

  /** Everything that has happened in a run from silence. */
  function History(steps: seq<Step>): Past {
    if |steps| == 0 then Past([], 0, false) else
      var last := steps[|steps| - 1];
      After(History(steps[..|steps| - 1]), StateAfter(steps[..|steps| - 1]), last.time, last.output)
  }

  /** No step is as long as the mixing table. */
  predicate Short(steps: seq<Step>) {
    forall i :: 0 <= i < |steps| ==> steps[i].time < MAX_AGE
  }

  /** The first n transitions of a past, each as far as it has been blended in. */
  function Blended(p: Past, winsinc: seq<int>, n: nat): int
    requires n <= |p.changes| && |winsinc| == MAX_AGE
    requires forall i :: 0 <= i < n ==> 0 <= p.now - p.changes[i].at < MAX_AGE
  {
    if n == 0 then 0 else
      var t := p.changes[n - 1];
      Blended(p, winsinc, n - 1) + (0x20000 - winsinc[p.now - t.at]) * (t.after - t.before)
  }

  lemma {:induction false} WeightedIsBlended(queue: seq<Entry>, p: Past, state: int, winsinc: seq<int>)
    requires Consistent(p, state) && |queue| <= |p.changes| && |winsinc| == MAX_AGE
    requires forall i :: 0 <= i < |queue| ==> queue[i] == EntryOf(p.changes[i], p.now) && queue[i].age < MAX_AGE
    ensures forall i :: 0 <= i < |queue| ==> 0 <= p.now - p.changes[i].at < MAX_AGE
    ensures Weighted(queue, winsinc) == Blended(p, winsinc, |queue|)
    decreases |queue|
  {
    forall i | 0 <= i < |queue|
      ensures 0 <= p.now - p.changes[i].at < MAX_AGE
    {
      assert queue[i] == EntryOf(p.changes[i], p.now);
    }
    if |queue| > 0 {
      WeightedIsBlended(queue[..|queue| - 1], p, state, winsinc);
    }
  }

  /** The sound of a run: the level before the oldest of the transitions that still count, and each of these as far as
      it has been blended in.  They are the newest ones younger than the table, at most LENGTH of them. */
  ghost predicate Sounds(steps: seq<Step>, winsinc: seq<int>, sum: int) {
    var p := History(steps);
    && Consistent(p, StateAfter(steps)) && Held(p) <= |p.changes| && |winsinc| == 2048
    && Held(p) == Less(130, Young(p.changes, p.now))
    && (forall i :: 0 <= i < Held(p) ==> 0 <= p.now - p.changes[i].at < 2048)
    && sum == 0x20000 * Base(p, StateAfter(steps), Held(p)) + Blended(p, winsinc, Held(p))
  }

  /** When the newest transition is young as well, the held ones are just the young ones. */
  lemma HeldIsYoung(p: Past, state: int)
    requires Consistent(p, state) && (|p.changes| > 0 && p.made ==> p.now - p.changes[0].at < MAX_AGE)
    ensures Held(p) == Less(LENGTH, Young(p.changes, p.now))
  {
  }

  class Channel {
    const queue: array<Entry>
    var length: nat
    var state: int

    ghost predicate Valid()
      reads this
    {
      queue.Length == LENGTH && length <= LENGTH
    }

    ghost function Queue(): (q: seq<Entry>)
      reads this, queue
      requires Valid()
      ensures |q| == length
    {
      queue[..length]
    }

    constructor ()
      ensures Valid() && fresh(queue) && Mirrors(Queue(), Past([], 0, false), state)
      ensures length == 0 && state == 0
    {
      queue := new Entry[LENGTH](i => Entry(0, 0));
      length, state := 0, 0;
    }

    /** Age the queue and truncate it where it gets too old. */
    method AgeQueue(time: nat)
      requires Valid()
      modifies this`length, queue
      ensures Valid() && Queue() == Aged(old(Queue()), time)
    {
      ghost var q := Queue();
      var j := 0;
      while j < length
        invariant Valid() && length == |q| && j <= length
        invariant forall i :: 0 <= i < j ==> queue[i] == q[i].(age := q[i].age + time) && queue[i].age < MAX_AGE
        invariant forall i :: j <= i < length ==> queue[i] == q[i]
      {
        queue[j] := queue[j].(age := queue[j].age + time);
        if queue[j].age >= MAX_AGE {
          length := j;
          break;
        }
        j := j + 1;
      }
      AgedIs(q, time, Queue());
    }

    /** The newest entry goes in front; the oldest falls out of a full queue. */
    method Insert(e: Entry)
      requires Valid()
      modifies this`length, queue
      ensures Valid() && Queue() == [e] + old(Queue())[..Less(old(length), LENGTH - 1)]
    {
      if length > LENGTH - 1 {
        length := LENGTH - 1;
      }
      forall i | 0 <= i < length {
        queue[i + 1] := queue[i];
      }
      length := length + 1;
      queue[0] := e;
    }

    /** sinc_prehandler, for one channel. */
    method Prehandle(time: nat, output: int, ghost p: Past)
      requires Valid() && Mirrors(Queue(), p, state)
      modifies this, queue
      ensures Valid() && state == output && Mirrors(Queue(), After(p, old(state), time, output), state)
    {
      hide Mirrors, Aged, After;
      HandledMirrors(Queue(), p, state, time, output);
      AgeQueue(time);
      if state != output {
        Insert(Entry(time, output - state));
        state := output;
      }
    }

    /** The sum of samplexx_sinc_handler, every index within the table. */
    method Mix(winsinc: seq<int>, ghost p: Past) returns (sum: int)
      requires Valid() && Mirrors(Queue(), p, state) && |winsinc| == MAX_AGE
      requires forall i :: 0 <= i < length ==> queue[i].age < MAX_AGE
      ensures sum == 0x20000 * Base(p, state, length) + Weighted(Queue(), winsinc)
    {
      sum := 0x20000 * state;
      for j := 0 to length
        invariant sum == 0x20000 * (state - Sum(Queue()[..j])) + Weighted(Queue()[..j], winsinc)
      {
        var e := queue[j];
        assert Queue()[..j + 1][..j] == Queue()[..j];
        assert (0x20000 - winsinc[e.age]) * e.output == 0x20000 * e.output - winsinc[e.age] * e.output;
        sum := sum - winsinc[e.age] * e.output;
      }
      assert Queue()[..length] == Queue();
      StateLessQueue(Queue(), p, state);
    }

    /** A whole run from silence: as long as every step is shorter than the table, every index is within it, and every
        sum is the sound of the run so far. */
    method Play(steps: seq<Step>, winsinc: seq<int>) returns (sums: seq<int>)
      requires Valid() && length == 0 && state == 0 && Short(steps) && |winsinc| == MAX_AGE
      modifies this, queue
      ensures |sums| == |steps|
      ensures forall k :: 0 <= k < |steps| ==> Sounds(steps[..k + 1], winsinc, sums[k])
    {
      hide Mirrors, Held, Young, After;
      sums := [];
      assert Mirrors(Queue(), History([]), 0) by { Silence(); }
      for k := 0 to |steps|
        invariant Valid() && Mirrors(Queue(), History(steps[..k]), state) && state == StateAfter(steps[..k])
        invariant |sums| == k && forall j :: 0 <= j < k ==> Sounds(steps[..j + 1], winsinc, sums[j])
      {
        ghost var p := History(steps[..k]);
        assert steps[..k + 1][..k] == steps[..k];
        ghost var before := state;
        Prehandle(steps[k].time, steps[k].output, p);
        ghost var q := History(steps[..k + 1]);
        YoungEnough(Queue(), p, before, steps[k].time, steps[k].output);
        var sum := Mix(winsinc, q);
        InTune(Queue(), steps[..k + 1], winsinc, sum);
        sums := sums + [sum];
      }
    }
  }

  lemma Silence()
    ensures Mirrors([], Past([], 0, false), 0)
  {
  }

  /** After a short step no entry is as old as the table. */
  lemma YoungEnough(queue: seq<Entry>, p: Past, state: int, time: nat, output: int)
    requires Mirrors(queue, After(p, state, time, output), output) && time < MAX_AGE
    ensures forall i :: 0 <= i < |queue| ==> queue[i].age < MAX_AGE
  {
    AgesInOrder(queue, After(p, state, time, output), output);
  }

  lemma InTune(queue: seq<Entry>, steps: seq<Step>, winsinc: seq<int>, sum: int)
    requires Mirrors(queue, History(steps), StateAfter(steps)) && |winsinc| == MAX_AGE
    requires forall i :: 0 <= i < |queue| ==> queue[i].age < MAX_AGE
    requires sum == 0x20000 * Base(History(steps), StateAfter(steps), |queue|) + Weighted(queue, winsinc)
    ensures Sounds(steps, winsinc, sum)
  {
    hide Held, Young, History;
    var p := History(steps);
    WeightedIsBlended(queue, p, StateAfter(steps), winsinc);
    if |p.changes| > 0 && p.made {
      HeldSome(p, StateAfter(steps));
    }
    HeldIsYoung(p, StateAfter(steps));
  }

  lemma HeldSome(p: Past, state: int)
    requires Consistent(p, state) && p.made
    ensures Held(p) > 0
  {
  }

  /** Each queued step, as far as it has been blended in. */
  function Weighted(queue: seq<Entry>, winsinc: seq<int>): int
    requires |winsinc| == MAX_AGE && forall i :: 0 <= i < |queue| ==> queue[i].age < MAX_AGE
  {
    if |queue| == 0 then 0 else
      var e := queue[|queue| - 1];
      Weighted(queue[..|queue| - 1], winsinc) + (0x20000 - winsinc[e.age]) * e.output
  }
}
