/** Numbers below 256 and bytes. */
module Octet {
  lemma ByteOfNat(n: nat)
    requires n < 256
    ensures (n as bv8) as nat == n
  {
  }

  lemma NatOfByte(b: bv8)
    ensures (b as nat) as bv8 == b && b as nat < 256
  {
  }
}
