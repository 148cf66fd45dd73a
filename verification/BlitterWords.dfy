/** Words, shifts and minterms of the blitter. */
module BlitterWords {

  datatype Word = Word(v: bv16)

  datatype Long = Long(v: bv32)

  function Wide(w: Word): Long {
    Long(w.v as bv32)
  }

  /** Truncation to sixteen bits. */
  function Low(l: Long): Word {
    Word((l.v & 0xFFFF) as bv16)
  }

  function And(a: Word, b: Word): Word {
    Word(a.v & b.v)
  }

  /** (uae_u32) hi << 16 | lo. */
  function Joined(hi: Word, lo: Word): Long {
    Long((hi.v as bv32 << 16) | lo.v as bv32)
  }

  function RightBits(x: bv32, n: nat): bv32
    requires n <= 16
  {
    x >> n
  }

  function Right(l: Long, n: nat): Long
    requires n <= 16
  {
    Long(RightBits(l.v, n))
  }

  /** ((uae_u32) prev << 16 | cur) >> shift, the ascending barrel shifter. */
  function ShiftUp(prev: Word, cur: Word, shift: nat): Long
    requires shift < 16
  {
    Right(Joined(prev, cur), shift)
  }

  /** ((uae_u32) cur << 16 | prev) >> (16 - shift), the descending one. */
  function ShiftDown(prev: Word, cur: Word, shift: nat): Long
    requires shift < 16
  {
    Right(Joined(cur, prev), 16 - shift)
  }

  function Hold(desc: bool, prev: Word, cur: Word, shift: nat): Long
    requires shift < 16
  {
    if desc then ShiftDown(prev, cur, shift) else ShiftUp(prev, cur, shift)
  }

  function Both(x: Long, z: Long): Long {
    Long(x.v & z.v)
  }

  function Either(x: Long, z: Long): Long {
    Long(x.v | z.v)
  }

  function Not(x: Long): Long {
    Long(!x.v)
  }

  function Pick(take: bool, term: Long): Long {
    if take then term else Long(0)
  }

  /** The chosen minterms of two words. */
  function Select(x: Long, z: Long, both: bool, onlyX: bool, onlyZ: bool, none: bool): Long {
    Either(Either(Pick(both, Both(x, z)), Pick(onlyX, Both(x, Not(z)))),
           Either(Pick(onlyZ, Both(Not(x), z)), Pick(none, Both(Not(x), Not(z)))))
  }

  function Has(mt: bv8, bit: bv8): bool {
    mt & bit != 0
  }

  /** The minterms of A and C with B set, and with B clear. */
  function WithB(x: Long, z: Long, mt: bv8): Long {
    Select(x, z, Has(mt, 0x80), Has(mt, 0x40), Has(mt, 0x08), Has(mt, 0x04))
  }

  function WithoutB(x: Long, z: Long, mt: bv8): Long {
    Select(x, z, Has(mt, 0x20), Has(mt, 0x10), Has(mt, 0x02), Has(mt, 0x01))
  }

  /** p where y is set, q where it is clear. */
  function Choose(y: Long, p: Long, q: Long): Long {
    Either(Both(y, p), Both(Not(y), q))
  }

  /** blit_func: result bit i is bit 4a + 2b + c of the minterm byte for the input bits a, b, c at i.  The generated
      function bodies are not part of this model. */
  function BlitFunc(a: Long, b: Long, c: Long, mt: bv8): Long {
    Choose(b, WithB(a, c, mt), WithoutB(a, c, mt))
  }

  lemma ChooseLow(y: Long, p: Long, q: Long)
    ensures Low(Choose(Wide(Low(y)), p, q)) == Low(Choose(y, p, q))
  {
  }

  /** The low half of a minterm depends on the low half of B only, so it does not matter that one engine keeps its
      shifted B in 32 bits and the other in 16. */
  lemma BlitFuncLow(a: Long, b: Long, c: Long, mt: bv8)
    ensures Low(BlitFunc(a, Wide(Low(b)), c, mt)) == Low(BlitFunc(a, b, c, mt))
  {
    hide WithB, WithoutB, Choose, Wide, Low;
    ChooseLow(b, WithB(a, c, mt), WithoutB(a, c, mt));
  }

  lemma LowWide(w: Word)
    ensures Low(Wide(w)) == w
  {
  }

  /** Whether every bit of m is set in x, or every bit of it clear. */
  predicate Uniform(x: Long, m: Long, on: bool) {
    Both(x, m) == Pick(on, m)
  }

  /** The bit of the minterm byte that the values of A, B and C select: bit 4a + 2b + c. */
  function TermBit(a: bool, b: bool, c: bool): bv8 {
    if a then (if b then (if c then 0x80 else 0x40) else if c then 0x20 else 0x10)
    else if b then (if c then 0x08 else 0x04) else if c then 0x02 else 0x01
  }

  lemma NotUniform(x: Long, m: Long, on: bool)
    requires Uniform(x, m, on)
    ensures Uniform(Not(x), m, !on)
  {
    assert !x.v & m.v == m.v & !(x.v & m.v);
  }

  lemma BothMasked(x: Long, z: Long, m: Long)
    ensures Both(Both(x, z), m) == Both(Both(x, m), Both(z, m))
  {
  }

  lemma EitherMasked(x: Long, z: Long, m: Long)
    ensures Both(Either(x, z), m) == Either(Both(x, m), Both(z, m))
  {
  }

  lemma Constants(m: Long)
    ensures Both(m, m) == m && Both(m, Long(0)) == Long(0) && Both(Long(0), m) == Long(0)
      && Both(Long(0), Long(0)) == Long(0)
    ensures Either(m, m) == m && Either(m, Long(0)) == m && Either(Long(0), m) == m
      && Either(Long(0), Long(0)) == Long(0)
  {
  }

  lemma BothUniform(x: Long, z: Long, m: Long, a: bool, c: bool)
    requires Uniform(x, m, a) && Uniform(z, m, c)
    ensures Uniform(Both(x, z), m, a && c)
  {
    hide Both, Either;
    BothMasked(x, z, m);
    Constants(m);
  }

  lemma EitherUniform(x: Long, z: Long, m: Long, a: bool, c: bool)
    requires Uniform(x, m, a) && Uniform(z, m, c)
    ensures Uniform(Either(x, z), m, a || c)
  {
    hide Both, Either;
    EitherMasked(x, z, m);
    Constants(m);
  }

  lemma PickUniform(take: bool, x: Long, m: Long, a: bool)
    requires Uniform(x, m, a)
    ensures Uniform(Pick(take, x), m, take && a)
  {
    hide Both;
    Constants(m);
  }

  lemma SelectUniform(x: Long, z: Long, m: Long, a: bool, c: bool, both: bool, onlyX: bool, onlyZ: bool, none: bool)
    requires Uniform(x, m, a) && Uniform(z, m, c)
    ensures Uniform(Select(x, z, both, onlyX, onlyZ, none), m,
                    if a then (if c then both else onlyX) else if c then onlyZ else none)
  {
    hide Pick, Both, Either, Not, Uniform;
    NotUniform(x, m, a);
    NotUniform(z, m, c);
    BothUniform(x, z, m, a, c);
    BothUniform(x, Not(z), m, a, !c);
    BothUniform(Not(x), z, m, !a, c);
    BothUniform(Not(x), Not(z), m, !a, !c);
    var p, q, r, s := Both(x, z), Both(x, Not(z)), Both(Not(x), z), Both(Not(x), Not(z));
    PickUniform(both, p, m, a && c);
    PickUniform(onlyX, q, m, a && !c);
    PickUniform(onlyZ, r, m, !a && c);
    PickUniform(none, s, m, !a && !c);
    EitherUniform(Pick(both, p), Pick(onlyX, q), m, both && a && c, onlyX && a && !c);
    EitherUniform(Pick(onlyZ, r), Pick(none, s), m, onlyZ && !a && c, none && !a && !c);
    EitherUniform(Either(Pick(both, p), Pick(onlyX, q)), Either(Pick(onlyZ, r), Pick(none, s)), m,
      (both && a && c) || (onlyX && a && !c), (onlyZ && !a && c) || (none && !a && !c));
  }

  /** Wherever A, B and C are uniform, the result is the minterm bit they select. */
  lemma MintermSelects(x: Long, y: Long, z: Long, mt: bv8, m: Long, a: bool, b: bool, c: bool)
    requires Uniform(x, m, a) && Uniform(y, m, b) && Uniform(z, m, c)
    ensures Uniform(BlitFunc(x, y, z, mt), m, Has(mt, TermBit(a, b, c)))
  {
    hide Select, Both, Either, Not, Uniform, Has;
    var p, q := WithB(x, z, mt), WithoutB(x, z, mt);
    var withB := if a then (if c then Has(mt, 0x80) else Has(mt, 0x40)) else if c then Has(mt, 0x08) else Has(mt, 0x04);
    var without :=
      if a then (if c then Has(mt, 0x20) else Has(mt, 0x10)) else if c then Has(mt, 0x02) else Has(mt, 0x01);
    SelectUniform(x, z, m, a, c, Has(mt, 0x80), Has(mt, 0x40), Has(mt, 0x08), Has(mt, 0x04));
    SelectUniform(x, z, m, a, c, Has(mt, 0x20), Has(mt, 0x10), Has(mt, 0x02), Has(mt, 0x01));
    NotUniform(y, m, b);
    BothUniform(y, p, m, b, withB);
    BothUniform(Not(y), q, m, !b, without);
    EitherUniform(Both(y, p), Both(Not(y), q), m, b && withB, !b && without);
  }
}
