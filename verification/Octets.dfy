/** Eight bits as a number, and back. */
module Octets {

  lemma ByteRoundTrip(n: nat)
    requires n < 256
    ensures (n as bv8) as nat == n
  {
  }
}
