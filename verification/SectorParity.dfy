/** The P and Q parity encoders of a CD-ROM Mode 1 sector (sections 14.5 and 14.6 of ECMA-130).
    `at` is where header, data and parity start in the sector buffer (12 in encode_l2). */
module SectorParity {
  import opened GaloisField
  import opened Codeword

  const P_OFFSET: nat := 4 + 2048 + 4 + 8
  const P_SIZE: nat := 43 * 2 * 2
  const Q_OFFSET: nat := P_OFFSET + P_SIZE
  const Q_SIZE: nat := 26 * 2 * 2

  function DP0(i: bv8): bv8 {
    var j := i & 0xF;
    match i >> 4
    case 0 => (match j
      case 0 => 231 case 1 => 229 case 2 => 171 case 3 => 210 case 4 => 240 case 5 => 17 case 6 => 67 case 7 => 215
      case 8 => 43 case 9 => 120 case 10 => 8 case 11 => 199 case 12 => 74 case 13 => 102 case 14 => 220 case _ => 251)
    case _ => (match j
      case 0 => 95 case 1 => 175 case 2 => 87 case 3 => 166 case 4 => 113 case 5 => 75 case 6 => 198 case _ => 25)
  }

  function DP1(i: bv8): bv8 {
    var j := i & 0xF;
    match i >> 4
    case 0 => (match j
      case 0 => 230 case 1 => 172 case 2 => 211 case 3 => 241 case 4 => 18 case 5 => 68 case 6 => 216 case 7 => 44
      case 8 => 121 case 9 => 9 case 10 => 200 case 11 => 75 case 12 => 103 case 13 => 221 case 14 => 252 case _ => 96)
    case _ => (match j
      case 0 => 176 case 1 => 88 case 2 => 167 case 3 => 114 case 4 => 76 case 5 => 199 case 6 => 26 case _ => 1)
  }

  function DQ0(i: bv8): bv8 {
    var j := i & 0xF;
    match i >> 4
    case 0 => (match j
      case 0 => 190 case 1 => 96 case 2 => 250 case 3 => 132 case 4 => 59 case 5 => 81 case 6 => 159 case 7 => 154
      case 8 => 200 case 9 => 7 case 10 => 111 case 11 => 245 case 12 => 10 case 13 => 20 case 14 => 41 case _ => 156)
    case 1 => (match j
      case 0 => 168 case 1 => 79 case 2 => 173 case 3 => 231 case 4 => 229 case 5 => 171 case 6 => 210 case 7 => 240
      case 8 => 17 case 9 => 67 case 10 => 215 case 11 => 43 case 12 => 120 case 13 => 8 case 14 => 199 case _ => 74)
    case _ => (match j
      case 0 => 102 case 1 => 220 case 2 => 251 case 3 => 95 case 4 => 175 case 5 => 87 case 6 => 166 case 7 => 113
      case 8 => 75 case 9 => 198 case _ => 25)
  }

  function DQ1(i: bv8): bv8 {
    var j := i & 0xF;
    match i >> 4
    case 0 => (match j
      case 0 => 97 case 1 => 251 case 2 => 133 case 3 => 60 case 4 => 82 case 5 => 160 case 6 => 155 case 7 => 201
      case 8 => 8 case 9 => 112 case 10 => 246 case 11 => 11 case 12 => 21 case 13 => 42 case 14 => 157 case _ => 169)
    case 1 => (match j
      case 0 => 80 case 1 => 174 case 2 => 232 case 3 => 230 case 4 => 172 case 5 => 211 case 6 => 241 case 7 => 18
      case 8 => 68 case 9 => 216 case 10 => 44 case 11 => 121 case 12 => 9 case 13 => 200 case 14 => 75 case _ => 103)
    case _ => (match j
      case 0 => 221 case 1 => 252 case 2 => 96 case 3 => 176 case 4 => 88 case 5 => 167 case 6 => 114 case 7 => 76
      case 8 => 199 case 9 => 26 case _ => 1)
  }

  function DP(r: nat, i: nat): nat
    requires r < 2 && i < 24
  {
    (if r == 0 then DP0(i as bv8) else DP1(i as bv8)) as nat
  }

  function DQ(r: nat, i: nat): nat
    requires r < 2 && i < 43
  {
    (if r == 0 then DQ0(i as bv8) else DQ1(i as bv8)) as nat
  }

  function DPRow(r: nat): seq<nat>
    requires r < 2
  {
    seq(24, i requires 0 <= i < 24 => DP(r, i))
  }

  function DQRow(r: nat): seq<nat>
    requires r < 2
  {
    seq(43, i requires 0 <= i < 43 => DQ(r, i))
  }

  lemma DPColumn(i: bv8)
    requires i < 24
    ensures DP0(i) < 254 && DP1(i) < 255
    ensures Plus(Alog(DP0(i)), Alog(DP1(i))) == Alog(0)
    ensures Plus(Alog(DP0(i) + 1), Alog(DP1(i))) == Alog(25 - i)
  {
  }

  lemma DQColumn(i: bv8)
    requires i < 43
    ensures DQ0(i) < 254 && DQ1(i) < 255
    ensures Plus(Alog(DQ0(i)), Alog(DQ1(i))) == Alog(0)
    ensures Plus(Alog(DQ0(i) + 1), Alog(DQ1(i))) == Alog(44 - i)
  {
  }

  lemma FromBytes(c0: bv8, c1: bv8, weight: bv8)
    requires c0 < 254 && c1 < 255 && weight < 255
    requires Plus(Alog(c0), Alog(c1)) == Alog(0) && Plus(Alog(c0 + 1), Alog(c1)) == Alog(weight)
    ensures c0 as nat < 254 && c1 as nat < 255
    ensures CoefficientOk(c0 as nat, c1 as nat, weight as nat)
  {
    hide Plus, Alog, AsByte;
    ByteBack(0);
    ByteBack(c0);
    ByteBack(c1);
    ByteBack(c0 + 1);
    ByteBack(weight);
    assert (c0 + 1) as nat == c0 as nat + 1;
  }

  lemma DPBytes(b: bv8)
    requires b < 24
    ensures DP0(b) as nat < 254 && DP1(b) as nat < 255
    ensures CoefficientOk(DP0(b) as nat, DP1(b) as nat, 25 - (b as nat))
  {
    hide Plus, Alog, DP0, DP1, CoefficientOk;
    DPColumn(b);
    FromBytes(DP0(b), DP1(b), 25 - b);
    assert (25 - b) as nat == 25 - (b as nat);
  }

  lemma DQBytes(b: bv8)
    requires b < 43
    ensures DQ0(b) as nat < 254 && DQ1(b) as nat < 255
    ensures CoefficientOk(DQ0(b) as nat, DQ1(b) as nat, 44 - (b as nat))
  {
    hide Plus, Alog, DQ0, DQ1, CoefficientOk;
    DQColumn(b);
    FromBytes(DQ0(b), DQ1(b), 44 - b);
    assert (44 - b) as nat == 44 - (b as nat);
  }

  lemma DPOk(i: nat)
    requires i < 24
    ensures DP(0, i) < 254 && DP(1, i) < 255 && CoefficientOk(DP(0, i), DP(1, i), 25 - i)
  {
    hide DP0, DP1, CoefficientOk;
    DPBytes(i as bv8);
  }

  lemma DQOk(i: nat)
    requires i < 43
    ensures DQ(0, i) < 254 && DQ(1, i) < 255 && CoefficientOk(DQ(0, i), DQ(1, i), 44 - i)
  {
    hide DQ0, DQ1, CoefficientOk;
    DQBytes(i as bv8);
  }

  /** Both coefficient tables satisfy the identity that makes their parities complete a codeword. */
  lemma TablesOk()
    ensures CoefficientsOk(DPRow(0), DPRow(1)) && CoefficientsOk(DQRow(0), DQRow(1))
  {
    hide DP, DQ, CoefficientOk;
    forall i: nat | i < 24
      ensures DPRow(0)[i] < 254 && DPRow(1)[i] < 255 && CoefficientOk(DPRow(0)[i], DPRow(1)[i], 25 - i)
    {
      DPOk(i);
    }
    forall i: nat | i < 43
      ensures DQRow(0)[i] < 254 && DQRow(1)[i] < 255 && CoefficientOk(DQRow(0)[i], DQRow(1)[i], 44 - i)
    {
      DQOk(i);
    }
  }

  // ---------- layout ----------

  /** Byte column q = 2j + lane: the header, data and P symbols 86 bytes apart. */
  function Column(s: seq<bv8>, at: nat, q: nat): (c: seq<bv8>)
    requires at + Q_OFFSET <= |s| && q < 86
    ensures |c| == 26
  {
    seq(26, i requires 0 <= i < 26 => s[at + 86 * i + q])
  }

  /** Where the encoder looks for symbol i of diagonal q = 2j + lane. */
  function DiagonalIndex(q: nat, i: nat): (k: nat)
    requires q < 52 && i < 43
    ensures k < Q_OFFSET
  {
    (q / 2 * 43 * 2 + i * 2 * 44 + q % 2) % Q_OFFSET
  }

  function DiagonalData(s: seq<bv8>, at: nat, q: nat): (d: seq<bv8>)
    requires at + Q_OFFSET <= |s| && q < 52
    ensures |d| == 43
  {
    seq(43, i requires 0 <= i < 43 => s[at + DiagonalIndex(q, i)])
  }

  /** The diagonal with its two Q symbols. */
  function Diagonal(s: seq<bv8>, at: nat, q: nat): seq<bv8>
    requires at + Q_OFFSET + Q_SIZE <= |s| && q < 52
  {
    DiagonalData(s, at, q) + [s[at + Q_OFFSET + q], s[at + Q_OFFSET + 52 + q]]
  }

  /** Word index of symbol i of diagonal j. */
  function WordIndex(j: nat, i: nat): nat {
    (43 * j + 44 * i) % 1118
  }

  /** The encoder's index, in words and lanes. */
  lemma IndexOfWord(q: nat, i: nat)
    requires q < 52 && i < 43
    ensures DiagonalIndex(q, i) == 2 * WordIndex(q / 2, i) + q % 2
  {
    var n := 43 * (q / 2) + 44 * i;
    assert q / 2 * 43 * 2 + i * 2 * 44 + q % 2 == 2 * n + q % 2;
    DoubledRemainder(n, q % 2);
  }

  lemma DoubledRemainder(n: nat, b: nat)
    requires b < 2
    ensures (2 * n + b) % 2236 == 2 * (n % 1118) + b
  {
    assert n == 1118 * (n / 1118) + n % 1118;
    Mod2236(n / 1118, 2 * (n % 1118) + b);
  }

  lemma Mod2236(q: int, r: nat)
    requires r < 2236
    ensures (2236 * q + r) % 2236 == r
  {
  }

  /** The 52 byte diagonals that the encoder reads visit every header, data and P byte exactly once. */
  lemma DiagonalsPartition(k: nat)
    requires k < Q_OFFSET
    ensures exists q: nat, i: nat :: q < 52 && i < 43 && DiagonalIndex(q, i) == k
    ensures forall q: nat, i: nat, q': nat, i': nat ::
      q < 52 && i < 43 && q' < 52 && i' < 43 && DiagonalIndex(q, i) == k && DiagonalIndex(q', i') == k ==>
        q == q' && i == i'
  {
    hide DiagonalIndex, WordIndex;
    var j, i := WordAt(k / 2);
    assert (2 * j + k % 2) / 2 == j && (2 * j + k % 2) % 2 == k % 2;
    IndexOfWord(2 * j + k % 2, i);
    forall q: nat, i': nat | q < 52 && i' < 43 && DiagonalIndex(q, i') == k
      ensures q == 2 * j + k % 2 && i' == i
    {
      IndexOfWord(q, i');
      OnlyWordAt(q / 2, i', j, i, k / 2);
    }
  }

  /** Some symbol of some diagonal is word w, */
  lemma WordAt(w: nat) returns (j: nat, i: nat)
    requires w < 1118
    ensures j < 26 && i < 43 && WordIndex(j, i) == w
  {
    i := w % 43;
    j := (23 * (w + 8 * i)) % 26;
    Congruent(w, i, j);
  }

  /** and only one is. */
  lemma OnlyWordAt(j: nat, i: nat, j': nat, i': nat, w: nat)
    requires j < 26 && i < 43 && j' < 26 && i' < 43 && WordIndex(j, i) == w && WordIndex(j', i') == w
    ensures j == j' && i == i'
  {
    Inverse(j, i, w);
    Inverse(j', i', w);
  }

  lemma Congruent(w: nat, i: nat, j: nat)
    requires w < 1118 && i == w % 43 && j == (23 * (w + 8 * i)) % 26
    ensures (43 * j + 44 * i) % 1118 == w
  {
    var a, b := w / 43, 23 * (w + 8 * i) / 26;
    assert w == 43 * a + i && 23 * (w + 8 * i) == 26 * b + j;
    // the difference is a multiple of 43 and of 26, so of 1118
    var x, y := j + i - a, 38 * w + 306 * i - 43 * b;
    assert 43 * j + 44 * i - w == 43 * x == 26 * y;
    assert 5 * x * 26 + x * (-1) == 129 * x == 3 * 43 * x == 78 * y;
    assert x == 26 * (5 * x - 3 * y);
    assert 43 * j + 44 * i == 1118 * (5 * x - 3 * y) + w;
    Mod1118(5 * x - 3 * y, w);
  }

  lemma Inverse(j: nat, i: nat, w: nat)
    requires j < 26 && i < 43 && (43 * j + 44 * i) % 1118 == w
    ensures i == w % 43 && j == (23 * (w + 8 * (w % 43))) % 26
  {
    var n := (43 * j + 44 * i) / 1118;
    assert w == 43 * (j + i - 26 * n) + i;
    Mod43(j + i - 26 * n, i);
    assert 23 * (w + 8 * i) == 26 * (38 * j + 46 * i - 989 * n) + j;
    Mod26(38 * j + 46 * i - 989 * n, j);
  }

  lemma Mod43(q: int, r: nat)
    requires r < 43
    ensures (43 * q + r) % 43 == r
  {
  }

  lemma Mod26(q: int, r: nat)
    requires r < 26
    ensures (26 * q + r) % 26 == r
  {
  }

  lemma Mod1118(q: int, r: nat)
    requires r < 1118
    ensures (1118 * q + r) % 1118 == r
  {
  }

  // ---------- the encoders ----------

  /** Effect of adding data symbol `src` into the parity bytes `dst0` and `dst1`. */
  function Accumulated(s: seq<bv8>, src: nat, dst0: nat, dst1: nat, c0: nat, c1: nat): (t: seq<bv8>)
    requires src < |s| && dst0 < |s| && dst1 < |s| && c0 < 255 && c1 < 255
    ensures |t| == |s|
  {
    s[dst0 := Plus(s[dst0], TableProduct(s[src], c0))][dst1 := Plus(s[dst1], TableProduct(s[src], c1))]
  }

  /** The block the source writes out once per lane and code. */
  method AccumulateParity(sector: array<bv8>, src: nat, dst0: nat, dst1: nat, c0: nat, c1: nat)
    requires src < sector.Length && dst0 < dst1 < sector.Length && src != dst0 && src != dst1
    requires c0 < 255 && c1 < 255
    modifies sector
    ensures sector[..] == Accumulated(old(sector[..]), src, dst0, dst1, c0, c1)
  {
    hide Plus, AlogAt, Exponent;
    var data := sector[src];
    PlusLaws(sector[dst0], 0, 0);
    PlusLaws(sector[dst1], 0, 0);
    if data != 0 {
      ExponentOf(data);
      var base := Exponent(data);
      var sum := base + c0;
      if sum >= 255 {
        sum := sum - 255;
      }
      sector[dst0] := Plus(sector[dst0], AlogAt(sum));
      sum := base + c1;
      if sum >= 255 {
        sum := sum - 255;
      }
      sector[dst1] := Plus(sector[dst1], AlogAt(sum));
    }
  }

  /** memset (sector + from, 0, n). */
  method Clear(sector: array<bv8>, from: nat, n: nat)
    requires from + n <= sector.Length
    modifies sector
    ensures forall k :: from <= k < from + n ==> sector[k] == 0
    ensures forall k :: 0 <= k < sector.Length && !(from <= k < from + n) ==> sector[k] == old(sector[k])
  {
    for i := 0 to n
      invariant forall k :: from <= k < from + i ==> sector[k] == 0
      invariant forall k :: 0 <= k < sector.Length && !(from <= k < from + i) ==> sector[k] == old(sector[k])
    {
      sector[from + i] := 0;
    }
  }

  lemma RowsBelow255()
    ensures forall r: nat, i: nat :: r < 2 && i < 24 ==> DPRow(r)[i] == DP(r, i) < 255
    ensures forall r: nat, i: nat :: r < 2 && i < 43 ==> DQRow(r)[i] == DQ(r, i) < 255
  {
    hide DP, DQ, CoefficientOk;
    TablesOk();
    forall r: nat, i: nat | r < 2 && i < 24 ensures DPRow(r)[i] == DP(r, i) < 255 {
      assert DPRow(r)[i] == DP(r, i);
      if r == 0 {} else {}
    }
    forall r: nat, i: nat | r < 2 && i < 43 ensures DQRow(r)[i] == DQ(r, i) < 255 {
      assert DQRow(r)[i] == DQ(r, i);
      if r == 0 {} else {}
    }
  }

  function ColumnSource(at: nat, q: nat, i: nat): nat {
    at + 86 * i + q
  }

  function DiagonalSource(at: nat, q: nat, i: nat): nat
    requires q < 52 && i < 43
  {
    at + DiagonalIndex(q, i)
  }

  /** What encode_L2_P has accumulated in parity row r of byte column q once its loops have finished the
      first j pairs and the first i symbols of pair j. */
  function PPartial(s: seq<bv8>, at: nat, q: nat, r: nat, j: nat, i: nat): bv8
    requires at + Q_OFFSET <= |s| && q < 86 && r < 2 && i <= 24
  {
    RowsBelow255();
    Parity(Column(s, at, q)[..if q < 2 * j then 24 else if q < 2 * j + 2 then i else 0], DPRow(r))
  }

  /** The buffer during encode_L2_P: nothing but parity bytes changed, and they hold the partial sums. */
  ghost predicate PState(s: seq<bv8>, s0: seq<bv8>, at: nat, j: nat, i: nat) {
    && |s| == |s0| && at + P_OFFSET + P_SIZE <= |s| && i <= 24
    && (forall k :: 0 <= k < |s| && !(at + P_OFFSET <= k < at + P_OFFSET + P_SIZE) ==> s[k] == s0[k])
    && forall q: nat :: q < 86 ==> PSlot(s, s0, at, q, j, i)
  }

  /** Both parity bytes of one column hold its partial sums. */
  ghost predicate PSlot(s: seq<bv8>, s0: seq<bv8>, at: nat, q: nat, j: nat, i: nat)
    requires |s| == |s0| && at + P_OFFSET + P_SIZE <= |s| && i <= 24 && q < 86
  {
    && s[at + P_OFFSET + q] == PPartial(s0, at, q, 0, j, i)
    && s[at + P_OFFSET + 86 + q] == PPartial(s0, at, q, 1, j, i)
  }

  lemma PPartialStep(s: seq<bv8>, at: nat, q: nat, r: nat, j: nat, i: nat)
    requires at + Q_OFFSET <= |s| && q < 86 && r < 2 && i < 24
    ensures DP(r, i) < 255
    ensures PPartial(s, at, q, r, j, i + 1) == if q < 2 * j || q >= 2 * j + 2 then PPartial(s, at, q, r, j, i) else
        Plus(PPartial(s, at, q, r, j, i), TableProduct(s[ColumnSource(at, q, i)], DP(r, i)))
  {
    hide Plus, TableProduct, DP;
    RowsBelow255();
    var c := Column(s, at, q);
    assert c[..i + 1][..i] == c[..i];
  }

  /** One turn of the inner loop. */
  lemma PTurn(s: seq<bv8>, s0: seq<bv8>, at: nat, j: nat, i: nat)
    requires j < 43 && i < 24 && PState(s, s0, at, j, i)
    ensures DP(0, i) < 255 && DP(1, i) < 255
    ensures PState(PTurned(s, at, j, i), s0, at, j, i + 1)
  {
    hide Plus, TableProduct, DP, PPartial;
    RowsBelow255();
    var p := at + P_OFFSET + 2 * j;
    var t := PTurned(s, at, j, i);
    var next := i + 1;
    forall q: nat | q < 86
      ensures PSlot(t, s0, at, q, j, next)
    {
      PPartialStep(s0, at, q, 0, j, i);
      PPartialStep(s0, at, q, 1, j, i);
      assert PSlot(s, s0, at, q, j, i);
    }
  }

  function PTurned(s: seq<bv8>, at: nat, j: nat, i: nat): (t: seq<bv8>)
    requires j < 43 && i < 24 && at + P_OFFSET + P_SIZE <= |s|
    ensures |t| == |s|
  {
    RowsBelow255();
    var p := at + P_OFFSET + 2 * j;
    var lsb := Accumulated(s, ColumnSource(at, 2 * j, i), p, p + 86, DP(0, i), DP(1, i));
    Accumulated(lsb, ColumnSource(at, 2 * j + 1, i), p + 1, p + 86 + 1, DP(0, i), DP(1, i))
  }

  lemma PBegin(s: seq<bv8>, s0: seq<bv8>, at: nat)
    requires |s| == |s0| && at + P_OFFSET + P_SIZE <= |s|
    requires forall k :: 0 <= k < |s| && !(at + P_OFFSET <= k < at + P_OFFSET + P_SIZE) ==> s[k] == s0[k]
    requires forall k :: at + P_OFFSET <= k < at + P_OFFSET + P_SIZE ==> s[k] == 0
    ensures PState(s, s0, at, 0, 0)
  {
  }

  lemma PNextPair(s: seq<bv8>, s0: seq<bv8>, at: nat, j: nat)
    requires PState(s, s0, at, j, 24)
    ensures PState(s, s0, at, j + 1, 0)
  {
    hide DP, Parity;
    var next := j + 1;
    forall q: nat | q < 86
      ensures PSlot(s, s0, at, q, next, 0)
    {
      assert PSlot(s, s0, at, q, j, 24);
    }
  }

  method EncodeL2P(sector: array<bv8>, at: nat)
    requires at + Q_OFFSET <= sector.Length
    modifies sector
    ensures forall k :: 0 <= k < sector.Length && !(at + P_OFFSET <= k < at + Q_OFFSET) ==> sector[k] == old(sector[k])
    ensures forall q: nat :: q < 86 ==> IsCodeword(Column(sector[..], at, q))
  {
    hide Accumulated, PState, IsCodeword, DP;
    ghost var s0 := sector[..];
    var p := at + P_OFFSET;
    var inout := at;
    Clear(sector, p, P_SIZE);
    PBegin(sector[..], s0, at);
    for j := 0 to 43
      invariant p == at + P_OFFSET + 2 * j && inout == at + 2 * j
      invariant PState(sector[..], s0, at, j, 0)
    {
      for i := 0 to 24
        invariant PState(sector[..], s0, at, j, i)
      {
        PTurn(sector[..], s0, at, j, i);
        AccumulateParity(sector, inout + i * 2 * 43, p, p + 43 * 2, DP(0, i), DP(1, i));
        AccumulateParity(sector, inout + i * 2 * 43 + 1, p + 1, p + 43 * 2 + 1, DP(0, i), DP(1, i));
      }
      PNextPair(sector[..], s0, at, j);
      p := p + 2;
      inout := inout + 2;
    }
    ColumnsComplete(s0, sector[..], at);
  }

  lemma ColumnsComplete(s0: seq<bv8>, s: seq<bv8>, at: nat)
    requires PState(s, s0, at, 43, 0)
    ensures forall k :: 0 <= k < |s| && !(at + P_OFFSET <= k < at + Q_OFFSET) ==> s[k] == s0[k]
    ensures forall q: nat :: q < 86 ==> IsCodeword(Column(s, at, q))
  {
    hide IsCodeword, Parity, DP, CoefficientsOk;
    TablesOk();
    RowsBelow255();
    forall q: nat | q < 86 ensures IsCodeword(Column(s, at, q)) {
      var d := Column(s0, at, q)[..24];
      ParityCompletes(d, DPRow(0), DPRow(1));
      assert PSlot(s, s0, at, q, 43, 0);
      assert Column(s, at, q) == d + [Parity(d, DPRow(0)), Parity(d, DPRow(1))];
    }
  }

  /** What encode_L2_Q has accumulated in parity row r of byte diagonal q once its loops have finished the
      first j pairs and the first i symbols of pair j. */
  function QPartial(s: seq<bv8>, at: nat, q: nat, r: nat, j: nat, i: nat): bv8
    requires at + Q_OFFSET <= |s| && q < 52 && r < 2 && i <= 43
  {
    RowsBelow255();
    Parity(DiagonalData(s, at, q)[..if q < 2 * j then 43 else if q < 2 * j + 2 then i else 0], DQRow(r))
  }

  /** The buffer during encode_L2_Q: nothing but parity bytes changed, and they hold the partial sums. */
  ghost predicate QState(s: seq<bv8>, s0: seq<bv8>, at: nat, j: nat, i: nat) {
    && |s| == |s0| && at + Q_OFFSET + Q_SIZE <= |s| && i <= 43
    && (forall k :: 0 <= k < |s| && !(at + Q_OFFSET <= k < at + Q_OFFSET + Q_SIZE) ==> s[k] == s0[k])
    && forall q: nat :: q < 52 ==> QSlot(s, s0, at, q, j, i)
  }

  /** Both parity bytes of one column hold its partial sums. */
  ghost predicate QSlot(s: seq<bv8>, s0: seq<bv8>, at: nat, q: nat, j: nat, i: nat)
    requires |s| == |s0| && at + Q_OFFSET + Q_SIZE <= |s| && i <= 43 && q < 52
  {
    && s[at + Q_OFFSET + q] == QPartial(s0, at, q, 0, j, i)
    && s[at + Q_OFFSET + 52 + q] == QPartial(s0, at, q, 1, j, i)
  }

  lemma QPartialStep(s: seq<bv8>, at: nat, q: nat, r: nat, j: nat, i: nat)
    requires at + Q_OFFSET <= |s| && q < 52 && r < 2 && i < 43
    ensures DQ(r, i) < 255
    ensures QPartial(s, at, q, r, j, i + 1) == if q < 2 * j || q >= 2 * j + 2 then QPartial(s, at, q, r, j, i) else
        Plus(QPartial(s, at, q, r, j, i), TableProduct(s[DiagonalSource(at, q, i)], DQ(r, i)))
  {
    hide Plus, TableProduct, DQ, DiagonalIndex;
    RowsBelow255();
    var c := DiagonalData(s, at, q);
    assert c[..i + 1][..i] == c[..i];
  }

  /** One turn of the inner loop. */
  lemma QTurn(s: seq<bv8>, s0: seq<bv8>, at: nat, j: nat, i: nat)
    requires j < 26 && i < 43 && QState(s, s0, at, j, i)
    ensures DQ(0, i) < 255 && DQ(1, i) < 255
    ensures QState(QTurned(s, at, j, i), s0, at, j, i + 1)
  {
    hide Plus, TableProduct, DQ, QPartial, DiagonalIndex;
    RowsBelow255();
    var p := at + Q_OFFSET + 2 * j;
    var t := QTurned(s, at, j, i);
    var next := i + 1;
    forall q: nat | q < 52
      ensures QSlot(t, s0, at, q, j, next)
    {
      QPartialStep(s0, at, q, 0, j, i);
      QPartialStep(s0, at, q, 1, j, i);
      assert QSlot(s, s0, at, q, j, i);
    }
  }

  function QTurned(s: seq<bv8>, at: nat, j: nat, i: nat): (t: seq<bv8>)
    requires j < 26 && i < 43 && at + Q_OFFSET + Q_SIZE <= |s|
    ensures |t| == |s|
  {
    RowsBelow255();
    var p := at + Q_OFFSET + 2 * j;
    var lsb := Accumulated(s, DiagonalSource(at, 2 * j, i), p, p + 52, DQ(0, i), DQ(1, i));
    Accumulated(lsb, DiagonalSource(at, 2 * j + 1, i), p + 1, p + 52 + 1, DQ(0, i), DQ(1, i))
  }

  lemma QBegin(s: seq<bv8>, s0: seq<bv8>, at: nat)
    requires |s| == |s0| && at + Q_OFFSET + Q_SIZE <= |s|
    requires forall k :: 0 <= k < |s| && !(at + Q_OFFSET <= k < at + Q_OFFSET + Q_SIZE) ==> s[k] == s0[k]
    requires forall k :: at + Q_OFFSET <= k < at + Q_OFFSET + Q_SIZE ==> s[k] == 0
    ensures QState(s, s0, at, 0, 0)
  {
  }

  lemma QNextPair(s: seq<bv8>, s0: seq<bv8>, at: nat, j: nat)
    requires QState(s, s0, at, j, 43)
    ensures QState(s, s0, at, j + 1, 0)
  {
    hide DQ, Parity;
    var next := j + 1;
    forall q: nat | q < 52
      ensures QSlot(s, s0, at, q, next, 0)
    {
      assert QSlot(s, s0, at, q, j, 43);
    }
  }

  lemma DiagonalSourceAt(at: nat, j: nat, i: nat)
    requires j < 26 && i < 43
    ensures DiagonalSource(at, 2 * j, i) == at + (j * 43 * 2 + i * 2 * 44) % Q_OFFSET
    ensures DiagonalSource(at, 2 * j + 1, i) == at + (j * 43 * 2 + i * 2 * 44 + 1) % Q_OFFSET
  {
    assert (2 * j) / 2 == j && (2 * j + 1) / 2 == j;
  }

  method EncodeL2Q(sector: array<bv8>, at: nat)
    requires at + Q_OFFSET + Q_SIZE <= sector.Length
    modifies sector
    ensures forall k :: 0 <= k < sector.Length && !(at + Q_OFFSET <= k < at + Q_OFFSET + Q_SIZE) ==>
      sector[k] == old(sector[k])
    ensures forall q: nat :: q < 52 ==> IsCodeword(Diagonal(sector[..], at, q))
  {
    hide Accumulated, QState, IsCodeword, DQ, DiagonalSource;
    ghost var s0 := sector[..];
    var p := at + Q_OFFSET;
    Clear(sector, p, Q_SIZE);
    QBegin(sector[..], s0, at);
    for j := 0 to 26
      invariant p == at + Q_OFFSET + 2 * j
      invariant QState(sector[..], s0, at, j, 0)
    {
      for i := 0 to 43
        invariant QState(sector[..], s0, at, j, i)
      {
        QTurn(sector[..], s0, at, j, i);
        DiagonalSourceAt(at, j, i);
        AccumulateParity(sector, at + (j * 43 * 2 + i * 2 * 44) % Q_OFFSET, p, p + 26 * 2, DQ(0, i), DQ(1, i));
        AccumulateParity(sector, at + (j * 43 * 2 + i * 2 * 44 + 1) % Q_OFFSET,
          p + 1, p + 26 * 2 + 1, DQ(0, i), DQ(1, i));
      }
      QNextPair(sector[..], s0, at, j);
      p := p + 2;
    }
    DiagonalsComplete(s0, sector[..], at);
  }

  lemma DiagonalsComplete(s0: seq<bv8>, s: seq<bv8>, at: nat)
    requires QState(s, s0, at, 26, 0)
    ensures forall k :: 0 <= k < |s| && !(at + Q_OFFSET <= k < at + Q_OFFSET + Q_SIZE) ==> s[k] == s0[k]
    ensures forall q: nat :: q < 52 ==> IsCodeword(Diagonal(s, at, q))
  {
    hide IsCodeword, Parity, DQ, CoefficientsOk, DiagonalIndex;
    TablesOk();
    RowsBelow255();
    forall q: nat | q < 52 ensures IsCodeword(Diagonal(s, at, q)) {
      var d := DiagonalData(s0, at, q);
      ParityCompletes(d, DQRow(0), DQRow(1));
      assert QSlot(s, s0, at, q, 26, 0);
      assert d[..43] == d == DiagonalData(s, at, q);
    }
  }

  // ---------- how far encoded sectors are apart ----------

  /** Two columns of encoded sectors whose header or data symbols differ are at least three symbols apart: no change of
      one or two symbols turns one valid column into another. */
  lemma ColumnsFarApart(s: seq<bv8>, t: seq<bv8>, at: nat, q: nat)
    requires at + Q_OFFSET <= |s| && at + Q_OFFSET <= |t| && q < 86
    requires IsCodeword(Column(s, at, q)) && IsCodeword(Column(t, at, q))
    requires Column(s, at, q)[..24] != Column(t, at, q)[..24]
    ensures |Differing(Column(s, at, q), Column(t, at, q))| >= 3
  {
    hide IsCodeword, Differing;
    MinimumDistance(Column(s, at, q), Column(t, at, q));
  }

  /** Two sectors after encode_L2_P differ in at least three symbols of every column in which their data differ. */
  method EncodeTwoP(a: array<bv8>, b: array<bv8>, at: nat)
    requires a != b && at + Q_OFFSET <= a.Length && at + Q_OFFSET <= b.Length
    modifies a, b
    ensures forall q: nat :: q < 86 && Column(old(a[..]), at, q)[..24] != Column(old(b[..]), at, q)[..24] ==>
      |Differing(Column(a[..], at, q), Column(b[..], at, q))| >= 3
  {
    hide IsCodeword, Differing;
    ghost var s0, t0 := a[..], b[..];
    EncodeL2P(a, at);
    EncodeL2P(b, at);
    forall q: nat | q < 86 && Column(s0, at, q)[..24] != Column(t0, at, q)[..24]
      ensures |Differing(Column(a[..], at, q), Column(b[..], at, q))| >= 3
    {
      assert Column(a[..], at, q)[..24] == Column(s0, at, q)[..24];
      assert Column(b[..], at, q)[..24] == Column(t0, at, q)[..24];
      ColumnsFarApart(a[..], b[..], at, q);
    }
  }

  /** Two diagonals of encoded sectors whose symbols differ are at least three symbols apart. */
  lemma DiagonalsFarApart(s: seq<bv8>, t: seq<bv8>, at: nat, q: nat)
    requires at + Q_OFFSET + Q_SIZE <= |s| && at + Q_OFFSET + Q_SIZE <= |t| && q < 52
    requires IsCodeword(Diagonal(s, at, q)) && IsCodeword(Diagonal(t, at, q))
    requires DiagonalData(s, at, q) != DiagonalData(t, at, q)
    ensures |Differing(Diagonal(s, at, q), Diagonal(t, at, q))| >= 3
  {
    hide IsCodeword, Differing, DiagonalIndex;
    assert Diagonal(s, at, q)[..43] == DiagonalData(s, at, q) && Diagonal(t, at, q)[..43] == DiagonalData(t, at, q);
    MinimumDistance(Diagonal(s, at, q), Diagonal(t, at, q));
  }

  /** Two sectors after encode_L2_Q differ in at least three symbols of every diagonal in which they differed before. */
  method EncodeTwoQ(a: array<bv8>, b: array<bv8>, at: nat)
    requires a != b && at + Q_OFFSET + Q_SIZE <= a.Length && at + Q_OFFSET + Q_SIZE <= b.Length
    modifies a, b
    ensures forall q: nat :: q < 52 && DiagonalData(old(a[..]), at, q) != DiagonalData(old(b[..]), at, q) ==>
      |Differing(Diagonal(a[..], at, q), Diagonal(b[..], at, q))| >= 3
  {
    hide IsCodeword, Differing, DiagonalIndex;
    ghost var s0, t0 := a[..], b[..];
    EncodeL2Q(a, at);
    EncodeL2Q(b, at);
    forall q: nat | q < 52 && DiagonalData(s0, at, q) != DiagonalData(t0, at, q)
      ensures |Differing(Diagonal(a[..], at, q), Diagonal(b[..], at, q))| >= 3
    {
      assert DiagonalData(a[..], at, q) == DiagonalData(s0, at, q);
      assert DiagonalData(b[..], at, q) == DiagonalData(t0, at, q);
      DiagonalsFarApart(a[..], b[..], at, q);
    }
  }
}
