/** Numbers below 256 and bytes. */
module ByteNumbers {
  lemma ByteBack(x: nat)
    requires x < 256
    ensures (x as bv8) as int == x
  {
  }
}
