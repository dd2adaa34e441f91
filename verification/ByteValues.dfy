/** Numbers as bytes. */
module ByteValues {
  /** A number below 256 is kept by the conversion to a byte. */
  lemma ByteValue(n: nat)
    requires n < 256
    ensures (n as bv8) as nat == n
  {
  }

  lemma ByteRange(b: bv8)
    ensures b as nat < 256 && (b as nat) as bv8 == b
  {
  }
}
