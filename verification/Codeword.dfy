/** Words of the two Reed-Solomon codes of ECMA-130 Annex A, defined by their two syndromes, with no table. */
module Codeword {
  import opened GaloisField

  /** The word, read as a polynomial with its last symbol as constant term, evaluated at 1. */
  function SumSyndrome(s: seq<bv8>): bv8 {
    if |s| == 0 then 0 else Plus(SumSyndrome(s[..|s| - 1]), s[|s| - 1])
  }

  /** The same polynomial evaluated at alpha. */
  function AlphaSyndrome(s: seq<bv8>): bv8 {
    if |s| == 0 then 0 else Plus(Xtime(AlphaSyndrome(s[..|s| - 1])), s[|s| - 1])
  }

  predicate IsCodeword(s: seq<bv8>) {
    SumSyndrome(s) == 0 && AlphaSyndrome(s) == 0
  }

  /** XOR of the table products of data symbols with one row of coefficients: what the encoder accumulates. */
  function Parity(d: seq<bv8>, row: seq<nat>): bv8
    requires |d| <= |row| && forall i :: 0 <= i < |row| ==> row[i] < 255
  {
    if |d| == 0 then 0 else
      Plus(Parity(d[..|d| - 1], row), TableProduct(d[|d| - 1], row[|d| - 1]))
  }

  /** What the two coefficient rows must satisfy: in every column i the powers of alpha sum to 1, and
      alpha times the first plus the second is the weight alpha^(n + 1 - i) of data symbol i. */
  ghost predicate CoefficientsOk(row0: seq<nat>, row1: seq<nat>) {
    && |row0| == |row1| < 250
    && (forall i :: 0 <= i < |row0| ==> row0[i] < 254 && row1[i] < 255)
    && forall i: nat :: i < |row0| ==> CoefficientOk(row0[i], row1[i], |row0| + 1 - i)
  }

  ghost predicate CoefficientOk(c0: nat, c1: nat, weight: nat)
    requires c0 < 254 && c1 < 255
  {
    && weight < 255
    && Plus(AlogAt(c0), AlogAt(c1)) == AlogAt(0)
    && Plus(AlogAt(c0 + 1), AlogAt(c1)) == AlogAt(weight)
  }

  /** One column of coefficients applied to one data symbol. */
  lemma ColumnIdentity(x: bv8, c0: nat, c1: nat, weight: nat)
    requires c0 < 254 && c1 < 255 && CoefficientOk(c0, c1, weight)
    ensures Plus(TableProduct(x, c0), TableProduct(x, c1)) == x
    ensures Plus(Xtime(TableProduct(x, c0)), TableProduct(x, c1)) == TimesAlpha(x, weight)
  {
    hide Plus, Xtime, AlogAt, TableProduct;
    PowerIdentityScales(x, c0, c1, 0);
    PowerIdentityScales(x, c0 + 1, c1, weight);
    TableProductIsProduct(x, c0);
    TableProductIsProduct(x, c1);
  }

  /** After the first n data symbols, appending enough zeroes and the two parities accumulated so far
      gives both syndromes zero. */
  lemma {:induction false} PrefixBalance(d: seq<bv8>, row0: seq<nat>, row1: seq<nat>)
    requires CoefficientsOk(row0, row1) && |d| <= |row0|
    ensures Plus(Parity(d, row0), Parity(d, row1)) == SumSyndrome(d)
    ensures Plus(Xtime(Parity(d, row0)), Parity(d, row1)) == TimesAlpha(AlphaSyndrome(d), |row0| + 2 - |d|)
  {
    hide Plus, Xtime, AlogAt, TableProduct;
    if |d| == 0 {
      TimesAlphaZero(|row0| + 2);
      XtimeZero();
      PlusLaws(0, 0, 0);
    } else {
      var n := |d| - 1;
      var rest, x := d[..n], d[n];
      PrefixBalance(rest, row0, row1);
      var weight := |row0| + 1 - n;
      assert CoefficientOk(row0[n], row1[n], weight);
      ColumnIdentity(x, row0[n], row1[n], weight);
      BalanceStep(Parity(rest, row0), Parity(rest, row1), TableProduct(x, row0[n]), TableProduct(x, row1[n]));
      TimesAlphaLinear(Xtime(AlphaSyndrome(rest)), x, weight);
      TimesAlphaAdd(AlphaSyndrome(rest), 1, weight);
      assert TimesAlpha(AlphaSyndrome(rest), 1) == Xtime(TimesAlpha(AlphaSyndrome(rest), 0));
    }
  }

  lemma XtimeZero()
    ensures Xtime(0) == 0
  {
  }

  lemma BalanceStep(p0: bv8, p1: bv8, t0: bv8, t1: bv8)
    ensures Plus(Plus(p0, t0), Plus(p1, t1)) == Plus(Plus(p0, p1), Plus(t0, t1))
    ensures Plus(Xtime(Plus(p0, t0)), Plus(p1, t1)) == Plus(Plus(Xtime(p0), p1), Plus(Xtime(t0), t1))
  {
    hide Xtime;
    XtimeLinear(p0, t0);
    Exchange(p0, t0, p1, t1);
    Exchange(Xtime(p0), Xtime(t0), p1, t1);
  }

  /** The encoder's parities complete any data to a codeword. */
  lemma ParityCompletes(d: seq<bv8>, row0: seq<nat>, row1: seq<nat>)
    requires CoefficientsOk(row0, row1) && |d| == |row0|
    ensures IsCodeword(d + [Parity(d, row0), Parity(d, row1)])
  {
    hide Plus, Xtime, AlogAt, TableProduct, Parity;
    PrefixBalance(d, row0, row1);
    var p0, p1 := Parity(d, row0), Parity(d, row1);
    var w0, w := d + [p0], d + [p0, p1];
    assert w0[..|w0| - 1] == d && w[..|w| - 1] == w0;
    assert SumSyndrome(w) == Plus(SumSyndrome(w0), p1) && SumSyndrome(w0) == Plus(SumSyndrome(d), p0);
    assert AlphaSyndrome(w) == Plus(Xtime(AlphaSyndrome(w0)), p1);
    assert AlphaSyndrome(w0) == Plus(Xtime(AlphaSyndrome(d)), p0);
    var s, a := SumSyndrome(d), AlphaSyndrome(d);
    PlusLaws(s, p0, p1);
    PlusLaws(s, s, 0);
    XtimeLinear(Xtime(a), p0);
    PlusLaws(Xtime(Xtime(a)), Xtime(p0), p1);
    assert TimesAlpha(a, 2) == Xtime(TimesAlpha(a, 1)) && TimesAlpha(a, 1) == Xtime(TimesAlpha(a, 0));
    PlusLaws(Xtime(Xtime(a)), Xtime(Xtime(a)), 0);
  }

  // ---------- distance ----------

  /** Symbol-wise difference of two words. */
  function Difference(s: seq<bv8>, t: seq<bv8>): (r: seq<bv8>)
    requires |s| == |t|
    ensures |r| == |s|
  {
    seq(|s|, i requires 0 <= i < |s| => Plus(s[i], t[i]))
  }

  /** The positions at which two words differ. */
  function Differing(s: seq<bv8>, t: seq<bv8>): set<nat>
    requires |s| == |t|
  {
    set i: nat | i < |s| && s[i] != t[i]
  }

  lemma {:induction false} SyndromesLinear(s: seq<bv8>, t: seq<bv8>)
    requires |s| == |t|
    ensures SumSyndrome(Difference(s, t)) == Plus(SumSyndrome(s), SumSyndrome(t))
    ensures AlphaSyndrome(Difference(s, t)) == Plus(AlphaSyndrome(s), AlphaSyndrome(t))
  {
    hide Plus, Xtime;
    if |s| == 0 {
      PlusLaws(0, 0, 0);
    } else {
      var n := |s| - 1;
      var s', t' := s[..n], t[..n];
      SyndromesLinear(s', t');
      assert Difference(s, t)[..n] == Difference(s', t');
      Exchange(SumSyndrome(s'), SumSyndrome(t'), s[n], t[n]);
      XtimeLinear(AlphaSyndrome(s'), AlphaSyndrome(t'));
      Exchange(Xtime(AlphaSyndrome(s')), Xtime(AlphaSyndrome(t')), s[n], t[n]);
    }
  }

  /** A word that is zero outside positions i and j has syndromes e_i + e_j and its two weighted errors. */
  lemma {:induction false} TwoErrors(e: seq<bv8>, i: nat, j: nat)
    requires i < j < |e|
    requires forall k :: 0 <= k < |e| && k != i && k != j ==> e[k] == 0
    ensures SumSyndrome(e) == Plus(e[i], e[j])
    ensures AlphaSyndrome(e) == Plus(TimesAlpha(e[i], |e| - 1 - i), TimesAlpha(e[j], |e| - 1 - j))
    decreases |e|
  {
    hide Plus, Xtime;
    var n := |e| - 1;
    var rest := e[..n];
    if j < n {
      TwoErrors(rest, i, j);
      PlusLaws(SumSyndrome(rest), 0, 0);
      var wi, wj := TimesAlpha(e[i], n - 1 - i), TimesAlpha(e[j], n - 1 - j);
      XtimeLinear(wi, wj);
      PlusLaws(Plus(Xtime(wi), Xtime(wj)), 0, 0);
    } else {
      OneError(rest, i);
    }
  }

  lemma {:induction false} OneError(e: seq<bv8>, i: nat)
    requires i < |e|
    requires forall k :: 0 <= k < |e| && k != i ==> e[k] == 0
    ensures SumSyndrome(e) == e[i]
    ensures AlphaSyndrome(e) == TimesAlpha(e[i], |e| - 1 - i)
    decreases |e|
  {
    hide Plus, Xtime;
    var n := |e| - 1;
    var rest := e[..n];
    if i < n {
      OneError(rest, i);
      PlusLaws(e[i], 0, 0);
      PlusLaws(Xtime(TimesAlpha(e[i], n - 1 - i)), 0, 0);
    } else {
      NoError(rest);
      XtimeZero();
      PlusLaws(e[i], 0, 0);
    }
  }

  lemma {:induction false} NoError(e: seq<bv8>)
    requires forall k :: 0 <= k < |e| ==> e[k] == 0
    ensures SumSyndrome(e) == 0 && AlphaSyndrome(e) == 0
  {
    hide Plus, Xtime;
    if |e| > 0 {
      NoError(e[..|e| - 1]);
      XtimeZero();
      PlusLaws(0, 0, 0);
    }
  }

  /** Two codewords that agree outside two positions are equal there too. */
  lemma NoCloseCodewords(s: seq<bv8>, t: seq<bv8>, i: nat, j: nat)
    requires |s| == |t| <= 255 && IsCodeword(s) && IsCodeword(t)
    requires i < j < |s|
    requires forall k :: 0 <= k < |s| && k != i && k != j ==> s[k] == t[k]
    ensures s == t
  {
    hide Plus, Xtime, TimesAlpha, SumSyndrome, AlphaSyndrome;
    var e := Difference(s, t);
    SyndromesLinear(s, t);
    PlusLaws(0, 0, 0);
    forall k | 0 <= k < |s| ensures e[k] == 0 <==> s[k] == t[k] {
      PlusLaws(s[k], t[k], 0);
    }
    TwoErrors(e, i, j);
    PlusLaws(e[i], e[j], 0);
    var x, y := |s| - 1 - i, |s| - 1 - j;
    PlusLaws(TimesAlpha(e[i], x), TimesAlpha(e[i], y), 0);
    if e[i] != 0 {
      TimesAlphaInjective(e[i], x, y);
    }
  }

  /** Minimum distance three: different codewords differ in at least three symbols. */
  lemma MinimumDistance(s: seq<bv8>, t: seq<bv8>)
    requires |s| == |t| <= 255 && IsCodeword(s) && IsCodeword(t) && s != t
    ensures |Differing(s, t)| >= 3
  {
    hide IsCodeword;
    var d := Differing(s, t);
    if |d| <= 2 && |s| >= 2 {
      var i, j := CoveringPair(d, |s|);
      assert forall k: nat :: k < |s| && s[k] != t[k] ==> k in d;
      NoCloseCodewords(s, t, i, j);
    } else if |s| < 2 {
      ShortCodewords(s, t);
    }
  }

  lemma ShortCodewords(s: seq<bv8>, t: seq<bv8>)
    requires |s| == |t| < 2 && IsCodeword(s) && IsCodeword(t)
    ensures s == t
  {
    hide Plus, Xtime;
    if |s| == 1 {
      OneError(s, 0);
      OneError(t, 0);
    }
  }

  lemma CoveringPair(d: set<nat>, n: nat) returns (i: nat, j: nat)
    requires |d| <= 2 && n >= 2 && forall k :: k in d ==> k < n
    ensures i < j < n && forall k :: k in d ==> k == i || k == j
  {
    i, j := 0, 1;
    if d != {} {
      var a :| a in d;
      var rest := d - {a};
      if rest == {} {
        assert forall k :: k in d ==> k == a || k in rest;
        i, j := 0, if a == 0 then 1 else a;
      } else {
        var b :| b in rest;
        assert |rest| == |d| - 1 && |rest - {b}| == |rest| - 1;
        assert forall k :: k in d ==> k == a || k == b || k in rest - {b};
        i, j := if a < b then a else b, if a < b then b else a;
      }
    }
  }
}
