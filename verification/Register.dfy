/** Eight-bit device registers and bytes. */
module Register {

  /** The contents of a register.  A datatype, so that only these functions look at its bits. */
  datatype Reg = Reg(v: bv8) {
    predicate Has(mask: bv8) {
      v & mask != 0
    }

    predicate Any() {
      v != 0
    }

    function Set(mask: bv8): Reg {
      Reg(v | mask)
    }

    function Clear(mask: bv8): Reg {
      Reg(v & !mask)
    }

    /** The contents as a number. */
    function Number(): (n: nat)
      ensures n < 256
    {
      v as nat
    }
  }

  lemma SmallByte(n: nat)
    requires n < 128
    ensures (n as bv8) as nat == n < 128
  {
    var b := n as bv8;
    assert (b as nat) as bv8 == b;
  }

  lemma SetTop(b: bv8)
    requires b as nat < 128
    ensures (b | 0x80) as nat == b as nat + 128
  {
  }

  /** A number below 256 survives as a byte. */
  lemma NatByte(n: nat)
    requires n < 256
    ensures (n as bv8) as nat == n
  {
    if n < 128 {
      SmallByte(n);
    } else {
      SmallByte(n - 128);
      SetTop((n - 128) as bv8);
      var b := (n - 128) as bv8 | 0x80;
      assert (b as nat) as bv8 == b;
    }
  }
}
