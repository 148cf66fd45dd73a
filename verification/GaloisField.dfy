/** GF(2^8) as the sector encoder uses it: bytes modulo x^8 + x^4 + x^3 + x^2 + 1, whose root is alpha
    (Annex A of ECMA-130).  Multiplication by alpha is one shift; the tables of src/cdrom.c are related to it. */
module GaloisField {
  import opened Register

  /** Addition in the field is exclusive or. */
  function Plus(a: bv8, b: bv8): bv8 {
    a ^ b
  }

  /** Sums of bytes form a commutative group in which every byte is its own inverse. */
  lemma PlusLaws(a: bv8, b: bv8, c: bv8)
    ensures Plus(a, b) == Plus(b, a)
    ensures Plus(Plus(a, b), c) == Plus(a, Plus(b, c))
    ensures Plus(a, 0) == a && Plus(0, a) == a
    ensures Plus(a, a) == 0
    ensures Plus(a, b) == 0 <==> a == b
  {
    assert (a ^ b) ^ c == a ^ (b ^ c);
  }

  lemma Exchange(a: bv8, b: bv8, c: bv8, d: bv8)
    ensures Plus(Plus(a, b), Plus(c, d)) == Plus(Plus(a, c), Plus(b, d))
  {
    hide Plus;
    PlusLaws(a, b, Plus(c, d));
    PlusLaws(b, c, d);
    PlusLaws(c, b, d);
    PlusLaws(a, c, Plus(b, d));
  }

  /** Multiplication by alpha. */
  function Xtime(x: bv8): bv8 {
    (x << 1) ^ (if x & 0x80 != 0 then 0x1D else 0)
  }

  /** x * alpha^k, with no table. */
  function TimesAlpha(x: bv8, k: nat): bv8 {
    if k == 0 then x else Xtime(TimesAlpha(x, k - 1))
  }

  /** The antilog table, sixteen entries a row (index 255 does not exist in the source). */
  function Alog(i: bv8): bv8 {
    var j := i & 0xF;
    match i >> 4
    case 0 => (match j
      case 0 => 1 case 1 => 2 case 2 => 4 case 3 => 8 case 4 => 16 case 5 => 32 case 6 => 64 case 7 => 128 case 8 => 29
      case 9 => 58 case 10 => 116 case 11 => 232 case 12 => 205 case 13 => 135 case 14 => 19 case _ => 38)
    case 1 => (match j
      case 0 => 76 case 1 => 152 case 2 => 45 case 3 => 90 case 4 => 180 case 5 => 117 case 6 => 234 case 7 => 201
      case 8 => 143 case 9 => 3 case 10 => 6 case 11 => 12 case 12 => 24 case 13 => 48 case 14 => 96 case _ => 192)
    case 2 => (match j
      case 0 => 157 case 1 => 39 case 2 => 78 case 3 => 156 case 4 => 37 case 5 => 74 case 6 => 148 case 7 => 53
      case 8 => 106 case 9 => 212 case 10 => 181 case 11 => 119 case 12 => 238 case 13 => 193 case 14 => 159
      case _ => 35)
    case 3 => (match j
      case 0 => 70 case 1 => 140 case 2 => 5 case 3 => 10 case 4 => 20 case 5 => 40 case 6 => 80 case 7 => 160
      case 8 => 93 case 9 => 186 case 10 => 105 case 11 => 210 case 12 => 185 case 13 => 111 case 14 => 222
      case _ => 161)
    case 4 => (match j
      case 0 => 95 case 1 => 190 case 2 => 97 case 3 => 194 case 4 => 153 case 5 => 47 case 6 => 94 case 7 => 188
      case 8 => 101 case 9 => 202 case 10 => 137 case 11 => 15 case 12 => 30 case 13 => 60 case 14 => 120 case _ => 240)
    case 5 => (match j
      case 0 => 253 case 1 => 231 case 2 => 211 case 3 => 187 case 4 => 107 case 5 => 214 case 6 => 177 case 7 => 127
      case 8 => 254 case 9 => 225 case 10 => 223 case 11 => 163 case 12 => 91 case 13 => 182 case 14 => 113
      case _ => 226)
    case 6 => (match j
      case 0 => 217 case 1 => 175 case 2 => 67 case 3 => 134 case 4 => 17 case 5 => 34 case 6 => 68 case 7 => 136
      case 8 => 13 case 9 => 26 case 10 => 52 case 11 => 104 case 12 => 208 case 13 => 189 case 14 => 103 case _ => 206)
    case 7 => (match j
      case 0 => 129 case 1 => 31 case 2 => 62 case 3 => 124 case 4 => 248 case 5 => 237 case 6 => 199 case 7 => 147
      case 8 => 59 case 9 => 118 case 10 => 236 case 11 => 197 case 12 => 151 case 13 => 51 case 14 => 102
      case _ => 204)
    case 8 => (match j
      case 0 => 133 case 1 => 23 case 2 => 46 case 3 => 92 case 4 => 184 case 5 => 109 case 6 => 218 case 7 => 169
      case 8 => 79 case 9 => 158 case 10 => 33 case 11 => 66 case 12 => 132 case 13 => 21 case 14 => 42 case _ => 84)
    case 9 => (match j
      case 0 => 168 case 1 => 77 case 2 => 154 case 3 => 41 case 4 => 82 case 5 => 164 case 6 => 85 case 7 => 170
      case 8 => 73 case 9 => 146 case 10 => 57 case 11 => 114 case 12 => 228 case 13 => 213 case 14 => 183
      case _ => 115)
    case 10 => (match j
      case 0 => 230 case 1 => 209 case 2 => 191 case 3 => 99 case 4 => 198 case 5 => 145 case 6 => 63 case 7 => 126
      case 8 => 252 case 9 => 229 case 10 => 215 case 11 => 179 case 12 => 123 case 13 => 246 case 14 => 241
      case _ => 255)
    case 11 => (match j
      case 0 => 227 case 1 => 219 case 2 => 171 case 3 => 75 case 4 => 150 case 5 => 49 case 6 => 98 case 7 => 196
      case 8 => 149 case 9 => 55 case 10 => 110 case 11 => 220 case 12 => 165 case 13 => 87 case 14 => 174 case _ => 65)
    case 12 => (match j
      case 0 => 130 case 1 => 25 case 2 => 50 case 3 => 100 case 4 => 200 case 5 => 141 case 6 => 7 case 7 => 14
      case 8 => 28 case 9 => 56 case 10 => 112 case 11 => 224 case 12 => 221 case 13 => 167 case 14 => 83 case _ => 166)
    case 13 => (match j
      case 0 => 81 case 1 => 162 case 2 => 89 case 3 => 178 case 4 => 121 case 5 => 242 case 6 => 249 case 7 => 239
      case 8 => 195 case 9 => 155 case 10 => 43 case 11 => 86 case 12 => 172 case 13 => 69 case 14 => 138 case _ => 9)
    case 14 => (match j
      case 0 => 18 case 1 => 36 case 2 => 72 case 3 => 144 case 4 => 61 case 5 => 122 case 6 => 244 case 7 => 245
      case 8 => 247 case 9 => 243 case 10 => 251 case 11 => 235 case 12 => 203 case 13 => 139 case 14 => 11
      case _ => 22)
    case _ => (match j
      case 0 => 44 case 1 => 88 case 2 => 176 case 3 => 125 case 4 => 250 case 5 => 233 case 6 => 207 case 7 => 131
      case 8 => 27 case 9 => 54 case 10 => 108 case 11 => 216 case 12 => 173 case 13 => 71 case _ => 142)
  }

  /** The log table, sixteen entries a row (entry 0 is never used). */
  function Log(i: bv8): bv8 {
    var j := i & 0xF;
    match i >> 4
    case 0 => (match j
      case 0 => 0 case 1 => 0 case 2 => 1 case 3 => 25 case 4 => 2 case 5 => 50 case 6 => 26 case 7 => 198 case 8 => 3
      case 9 => 223 case 10 => 51 case 11 => 238 case 12 => 27 case 13 => 104 case 14 => 199 case _ => 75)
    case 1 => (match j
      case 0 => 4 case 1 => 100 case 2 => 224 case 3 => 14 case 4 => 52 case 5 => 141 case 6 => 239 case 7 => 129
      case 8 => 28 case 9 => 193 case 10 => 105 case 11 => 248 case 12 => 200 case 13 => 8 case 14 => 76 case _ => 113)
    case 2 => (match j
      case 0 => 5 case 1 => 138 case 2 => 101 case 3 => 47 case 4 => 225 case 5 => 36 case 6 => 15 case 7 => 33
      case 8 => 53 case 9 => 147 case 10 => 142 case 11 => 218 case 12 => 240 case 13 => 18 case 14 => 130 case _ => 69)
    case 3 => (match j
      case 0 => 29 case 1 => 181 case 2 => 194 case 3 => 125 case 4 => 106 case 5 => 39 case 6 => 249 case 7 => 185
      case 8 => 201 case 9 => 154 case 10 => 9 case 11 => 120 case 12 => 77 case 13 => 228 case 14 => 114 case _ => 166)
    case 4 => (match j
      case 0 => 6 case 1 => 191 case 2 => 139 case 3 => 98 case 4 => 102 case 5 => 221 case 6 => 48 case 7 => 253
      case 8 => 226 case 9 => 152 case 10 => 37 case 11 => 179 case 12 => 16 case 13 => 145 case 14 => 34 case _ => 136)
    case 5 => (match j
      case 0 => 54 case 1 => 208 case 2 => 148 case 3 => 206 case 4 => 143 case 5 => 150 case 6 => 219 case 7 => 189
      case 8 => 241 case 9 => 210 case 10 => 19 case 11 => 92 case 12 => 131 case 13 => 56 case 14 => 70 case _ => 64)
    case 6 => (match j
      case 0 => 30 case 1 => 66 case 2 => 182 case 3 => 163 case 4 => 195 case 5 => 72 case 6 => 126 case 7 => 110
      case 8 => 107 case 9 => 58 case 10 => 40 case 11 => 84 case 12 => 250 case 13 => 133 case 14 => 186 case _ => 61)
    case 7 => (match j
      case 0 => 202 case 1 => 94 case 2 => 155 case 3 => 159 case 4 => 10 case 5 => 21 case 6 => 121 case 7 => 43
      case 8 => 78 case 9 => 212 case 10 => 229 case 11 => 172 case 12 => 115 case 13 => 243 case 14 => 167
      case _ => 87)
    case 8 => (match j
      case 0 => 7 case 1 => 112 case 2 => 192 case 3 => 247 case 4 => 140 case 5 => 128 case 6 => 99 case 7 => 13
      case 8 => 103 case 9 => 74 case 10 => 222 case 11 => 237 case 12 => 49 case 13 => 197 case 14 => 254 case _ => 24)
    case 9 => (match j
      case 0 => 227 case 1 => 165 case 2 => 153 case 3 => 119 case 4 => 38 case 5 => 184 case 6 => 180 case 7 => 124
      case 8 => 17 case 9 => 68 case 10 => 146 case 11 => 217 case 12 => 35 case 13 => 32 case 14 => 137 case _ => 46)
    case 10 => (match j
      case 0 => 55 case 1 => 63 case 2 => 209 case 3 => 91 case 4 => 149 case 5 => 188 case 6 => 207 case 7 => 205
      case 8 => 144 case 9 => 135 case 10 => 151 case 11 => 178 case 12 => 220 case 13 => 252 case 14 => 190
      case _ => 97)
    case 11 => (match j
      case 0 => 242 case 1 => 86 case 2 => 211 case 3 => 171 case 4 => 20 case 5 => 42 case 6 => 93 case 7 => 158
      case 8 => 132 case 9 => 60 case 10 => 57 case 11 => 83 case 12 => 71 case 13 => 109 case 14 => 65 case _ => 162)
    case 12 => (match j
      case 0 => 31 case 1 => 45 case 2 => 67 case 3 => 216 case 4 => 183 case 5 => 123 case 6 => 164 case 7 => 118
      case 8 => 196 case 9 => 23 case 10 => 73 case 11 => 236 case 12 => 127 case 13 => 12 case 14 => 111 case _ => 246)
    case 13 => (match j
      case 0 => 108 case 1 => 161 case 2 => 59 case 3 => 82 case 4 => 41 case 5 => 157 case 6 => 85 case 7 => 170
      case 8 => 251 case 9 => 96 case 10 => 134 case 11 => 177 case 12 => 187 case 13 => 204 case 14 => 62 case _ => 90)
    case 14 => (match j
      case 0 => 203 case 1 => 89 case 2 => 95 case 3 => 176 case 4 => 156 case 5 => 169 case 6 => 160 case 7 => 81
      case 8 => 11 case 9 => 245 case 10 => 22 case 11 => 235 case 12 => 122 case 13 => 117 case 14 => 44 case _ => 215)
    case _ => (match j
      case 0 => 79 case 1 => 174 case 2 => 213 case 3 => 233 case 4 => 230 case 5 => 231 case 6 => 173 case 7 => 232
      case 8 => 116 case 9 => 214 case 10 => 244 case 11 => 234 case 12 => 168 case 13 => 80 case 14 => 88
      case _ => 175)
  }

  lemma XtimeLinear(a: bv8, b: bv8)
    ensures Xtime(Plus(a, b)) == Plus(Xtime(a), Xtime(b))
  {
    if a & 0x80 != 0 {
      if b & 0x80 != 0 {} else {}
    } else {
      if b & 0x80 != 0 {} else {}
    }
  }

  lemma {:induction false} TimesAlphaLinear(a: bv8, b: bv8, k: nat)
    ensures TimesAlpha(Plus(a, b), k) == Plus(TimesAlpha(a, k), TimesAlpha(b, k))
  {
    hide Xtime, Plus;
    if k > 0 {
      TimesAlphaLinear(a, b, k - 1);
      XtimeLinear(TimesAlpha(a, k - 1), TimesAlpha(b, k - 1));
    }
  }

  lemma {:induction false} TimesAlphaAdd(x: bv8, j: nat, k: nat)
    ensures TimesAlpha(TimesAlpha(x, j), k) == TimesAlpha(x, j + k)
  {
    hide Xtime;
    if k > 0 {
      TimesAlphaAdd(x, j, k - 1);
    }
  }

  lemma {:induction false} TimesAlphaZero(k: nat)
    ensures TimesAlpha(0, k) == 0
  {
    if k > 0 {
      TimesAlphaZero(k - 1);
    }
  }

  /** Neighbouring antilog entries differ by a factor alpha. */
  lemma AlogStep(i: bv8)
    requires i < 254
    ensures Alog(i + 1) == Xtime(Alog(i))
  {
  }

  /** The antilog table holds the powers of alpha. */
  lemma {:induction false} AlogIsPower(i: bv8)
    requires i < 255
    ensures Alog(i) == TimesAlpha(1, i as nat)
    decreases i
  {
    if i > 0 {
      AlogIsPower(i - 1);
      AlogStep(i - 1);
      assert (i - 1) as nat + 1 == i as nat;
    }
  }

  lemma LogEighth0(d: bv8)
    requires 0 < d < 0x20
    ensures Log(d) < 255 && Alog(Log(d)) == d
  {
  }

  lemma LogEighth1(d: bv8)
    requires 0x20 <= d < 0x40
    ensures Log(d) < 255 && Alog(Log(d)) == d
  {
  }

  lemma LogQuarter1(d: bv8)
    requires 0x40 <= d < 0x80
    ensures Log(d) < 255 && Alog(Log(d)) == d
  {
  }

  lemma LogQuarter2(d: bv8)
    requires 0x80 <= d < 0xC0
    ensures Log(d) < 255 && Alog(Log(d)) == d
  {
  }

  lemma LogQuarter3(d: bv8)
    requires 0xC0 <= d
    ensures Log(d) < 255 && Alog(Log(d)) == d
  {
  }

  /** The log table inverts the antilog table on every non-zero byte. */
  lemma AlogOfLog(d: bv8)
    requires d != 0
    ensures Log(d) < 255 && Alog(Log(d)) == d
    ensures d == TimesAlpha(1, Log(d) as nat)
  {
    if d < 0x20 {
      LogEighth0(d);
    } else if d < 0x40 {
      LogEighth1(d);
    } else if d < 0x80 {
      LogQuarter1(d);
    } else if d < 0xC0 {
      LogQuarter2(d);
    } else {
      LogQuarter3(d);
    }
    AlogIsPower(Log(d));
  }

  lemma AlogLow(i: bv8)
    requires i < 0x80
    ensures Log(Alog(i)) == i && Alog(i) != 0
  {
  }

  lemma AlogHigh(i: bv8)
    requires 0x80 <= i < 255
    ensures Log(Alog(i)) == i && Alog(i) != 0
  {
  }

  /** alpha has order 255: multiplying by alpha^255 changes nothing. */
  lemma AlphaOrder(x: bv8)
    ensures TimesAlpha(x, 255) == x
  {
    if x == 0 {
      TimesAlphaZero(255);
    } else {
      AlogOfLog(x);
      var e := Log(x) as nat;
      AlogIsPower(254);
      assert TimesAlpha(1, 255) == 1;
      TimesAlphaAdd(1, e, 255);
      TimesAlphaAdd(1, 255, e);
    }
  }

  /** rs_l12_alog[i], indexed by a sum of exponents as in the source. */
  function AlogAt(i: nat): bv8
    requires i < 255
  {
    Alog(AsByte(i))
  }

  lemma ByteBelow(b: bv8)
    requires b as nat < 255
    ensures b < 255
  {
  }

  function AsByte(i: nat): bv8
    requires i < 255
  {
    i as bv8
  }

  /** Numbers below 255 are faithful as bytes. */
  lemma ByteIndex(i: nat)
    requires i < 255
    ensures AsByte(i) < 255 && AsByte(i) as nat == i
  {
    NatByte(i);
    ByteBelow(AsByte(i));
  }

  lemma ByteBack(b: bv8)
    requires b < 255
    ensures b as nat < 255 && AsByte(b as nat) == b
  {
  }

  lemma AlogAtIsPower(i: nat)
    requires i < 255
    ensures AlogAt(i) == TimesAlpha(1, i)
  {
    hide TimesAlpha, Alog, AsByte;
    ByteIndex(i);
    AlogIsPower(AsByte(i));
  }

  /** rs_l12_log[d] as a number. */
  function Exponent(d: bv8): nat {
    Log(d) as nat
  }

  lemma ExponentOf(d: bv8)
    requires d != 0
    ensures Exponent(d) < 255 && d == TimesAlpha(1, Exponent(d))
  {
    hide TimesAlpha, Alog, Log;
    AlogOfLog(d);
  }

  /** The product the encoder forms with its tables: add logs, subtract 255 once if needed, take the antilog. */
  function TableProduct(d: bv8, c: nat): bv8
    requires c < 255
  {
    if d == 0 then 0 else
      ExponentOf(d);
      AlogAt(Reduced(Exponent(d) + c))
  }

  /** One conditional subtraction, which suffices for a sum of two exponents below 255. */
  function Reduced(sum: nat): (r: nat)
    requires sum < 509
    ensures r < 255
  {
    if sum >= 255 then sum - 255 else sum
  }

  /** The table product is the field product with alpha^c, for every byte including zero. */
  lemma TableProductIsProduct(d: bv8, k: nat)
    requires k < 255
    ensures TableProduct(d, k) == TimesAlpha(d, k)
  {
    hide TimesAlpha, AlogAt, Exponent;
    if d == 0 {
      TimesAlphaZero(k);
    } else {
      ExponentOf(d);
      var e := Exponent(d);
      TimesAlphaAdd(1, e, k);
      AlogAtIsPower(Reduced(e + k));
      if e + k >= 255 {
        TimesAlphaAdd(1, e + k - 255, 255);
        AlphaOrder(TimesAlpha(1, e + k - 255));
      }
    }
  }

  /** Different exponents below 255 scale a non-zero byte to different bytes. */
  lemma TimesAlphaInjective(d: bv8, x: nat, y: nat)
    requires d != 0 && x < 255 && y < 255
    requires TimesAlpha(d, x) == TimesAlpha(d, y)
    ensures x == y
  {
    hide TimesAlpha, Exponent;
    ExponentOf(d);
    var e := Exponent(d);
    // multiply both sides by alpha^(255 - e), the inverse of d
    Normalise(e, x);
    Normalise(e, y);
    AlogAtInjective(x, y);
  }

  lemma PowerLog(a: bv8)
    requires a < 255
    ensures Log(TimesAlpha(1, a as nat)) == a
  {
    hide TimesAlpha, Alog, Log;
    AlogIsPower(a);
    if a < 0x80 { AlogLow(a); } else { AlogHigh(a); }
  }

  lemma AlogAtInjective(x: nat, y: nat)
    requires x < 255 && y < 255 && TimesAlpha(1, x) == TimesAlpha(1, y)
    ensures x == y
  {
    hide TimesAlpha, Log, AsByte;
    ByteIndex(x);
    ByteIndex(y);
    PowerLog(AsByte(x));
    PowerLog(AsByte(y));
  }

  lemma Normalise(e: nat, x: nat)
    requires e < 255
    ensures TimesAlpha(TimesAlpha(TimesAlpha(1, e), x), 255 - e) == TimesAlpha(1, x)
  {
    hide TimesAlpha;
    TimesAlphaAdd(1, e, x);
    TimesAlphaAdd(1, e + x, 255 - e);
    TimesAlphaAdd(1, x, 255);
    AlphaOrder(TimesAlpha(1, x));
  }

  /** If alpha^a + alpha^b = alpha^c then the same holds after multiplying by any byte. */
  lemma PowerIdentityScales(d: bv8, a: nat, b: nat, c: nat)
    requires a < 255 && b < 255 && c < 255
    requires Plus(AlogAt(a), AlogAt(b)) == AlogAt(c)
    ensures Plus(TimesAlpha(d, a), TimesAlpha(d, b)) == TimesAlpha(d, c)
  {
    hide Plus, TimesAlpha, AlogAt, Exponent;
    if d == 0 {
      TimesAlphaZero(a);
      TimesAlphaZero(b);
      TimesAlphaZero(c);
      PlusLaws(0, 0, 0);
    } else {
      ExponentOf(d);
      var e := Exponent(d);
      ScaledPower(e, a);
      ScaledPower(e, b);
      ScaledPower(e, c);
      TimesAlphaLinear(AlogAt(a), AlogAt(b), e);
    }
  }

  lemma ScaledPower(e: nat, a: nat)
    requires a < 255
    ensures TimesAlpha(TimesAlpha(1, e), a) == TimesAlpha(AlogAt(a), e)
  {
    hide TimesAlpha, AlogAt;
    AlogAtIsPower(a);
    TimesAlphaAdd(1, e, a);
    TimesAlphaAdd(1, a, e);
  }
}
