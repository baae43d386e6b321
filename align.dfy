/** The padding arithmetic of the processor: `n + (a-1 - (n + a-1) % a)`,
    used with a = 8 for the size of every record of a response buffer and
    with a = 4096 for a regular file's allocation size. */
module Align {

  /** The source's formula, written as it is (Ruby's `%` and Dafny's agree
      on non-negative operands). */
  function RoundUp(n: nat, a: nat): nat
    requires a > 0
  {
    n + ((a - 1) - (n + (a - 1)) % a)
  }

  function Pad8(n: nat): nat { RoundUp(n, 8) }

  function Pad4096(n: nat): nat { RoundUp(n, 4096) }

  /** Record padding: at least the record, below the record plus 8, a
      multiple of 8, and the least such multiple. */
  lemma Pad8Properties(n: nat)
    ensures Pad8(n) % 8 == 0 && n <= Pad8(n) < n + 8
    ensures forall m: nat :: m % 8 == 0 && n <= m ==> Pad8(n) <= m
    ensures Pad8(n) == 0 <==> n == 0
  {
    var q := (n + 7) / 8;
    assert Pad8(n) == 8 * q;
    forall m: nat | m % 8 == 0 && n <= m
      ensures Pad8(n) <= m
    {
      assert m == 8 * (m / 8);
    }
  }

  /** Allocation size: the file size rounded up to whole 4096-byte units. */
  lemma Pad4096Properties(n: nat)
    ensures Pad4096(n) % 4096 == 0 && n <= Pad4096(n) < n + 4096
    ensures forall m: nat :: m % 4096 == 0 && n <= m ==> Pad4096(n) <= m
  {
    var q := (n + 4095) / 4096;
    assert Pad4096(n) == 4096 * q;
    forall m: nat | m % 4096 == 0 && n <= m
      ensures Pad4096(n) <= m
    {
      assert m == 4096 * (m / 4096);
    }
  }
}
