/** Bytes as bit vectors and as table indices. */
module ByteCasts {
  lemma NextByte(b: bv8)
    requires b as int < 255
    ensures (b + 1) as int == b as int + 1
  {
  }

  lemma SameByte(b: bv8, c: bv8)
    requires b as int == c as int
    ensures b == c
  {
  }

  /** The byte with index i. */
  function ToByte(i: nat): (b: bv8)
    requires i < 256
    ensures b as int == i
  {
    if i == 0 then 0
    else
      var b := ToByte(i - 1);
      NextByte(b);
      b + 1
  }

  lemma ByteIndex(b: bv8)
    ensures 0 <= b as int < 256 && ToByte(b as int) == b
  {
    hide ToByte;
    SameByte(ToByte(b as int), b);
  }
}
