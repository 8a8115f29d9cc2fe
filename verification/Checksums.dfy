/** The checksums of a bzip2 stream: a register that is fed byte by byte, and the way the blocks' checksums are combined. */
module Checksums {
  import opened Words
  import opened ByteCasts
  import opened WordBits

  /**
   * The register before the first byte, the register after one byte more, the four bytes a register
   * stands for, and the checksum of several blocks from that of the blocks before and the last one's.
   */
  datatype Checksum = Checksum(start: bv32, update: (bv32, byte) -> bv32, finish: bv32 -> seq<byte>, combine: (seq<byte>, seq<byte>) -> seq<byte>) {
    ghost predicate Good() {
      && (forall r: bv32 :: |finish(r)| == 4)
      && forall c: seq<byte>, d: seq<byte> :: |combine(c, d)| == 4
    }

    /** The register after a string of bytes. */
    ghost function Register(s: seq<byte>): bv32 {
      if s == [] then start else update(Register(s[..|s| - 1]), s[|s| - 1])
    }

    /** The checksum of a string of bytes. */
    ghost function OfBytes(s: seq<byte>): seq<byte> {
      finish(Register(s))
    }

    lemma RegisterStep(s: seq<byte>, c: byte)
      ensures Register(s + [c]) == update(Register(s), c)
    {
      assert (s + [c])[..|s|] == s;
    }
  }

  // ---------- The checksum of the program ----------

  /** The register after one byte more; the index is the register's highest byte with the new one laid over it. */
  function UpdateWord(table: seq<bv32>, crc: bv32, c: byte): bv32
    requires |table| == 256
  {
    var i := LaidOver(HighByte(crc), ToByte(c));
    ByteIndex(i);
    Xor(LeftByte(crc), table[i as int])
  }

  function HighByte(crc: bv32): bv8 { (crc >> 24) as bv8 }

  function LeftByte(crc: bv32): bv32 { crc << 8 }

  function LaidOver(a: bv8, b: bv8): bv8 { a ^ b }

  function ByteAt(w: bv32, n: nat): bv8
    requires n <= 24
  {
    ((w >> n) & 0xff) as bv8
  }

  /** A word as four bytes, the highest first. */
  function WordBytes(w: bv32): (s: seq<byte>)
    ensures |s| == 4
  {
    [ByteAt(w, 24) as int, ByteAt(w, 16) as int, ByteAt(w, 8) as int, ByteAt(w, 0) as int]
  }

  function Join(a: bv8, b: bv8, c: bv8, d: bv8): bv32 {
    ((a as bv32) << 24) | ((b as bv32) << 16) | ((c as bv32) << 8) | (d as bv32)
  }

  function BytesWord(s: seq<byte>): bv32 {
    if |s| == 4 then Join(ToByte(s[0]), ToByte(s[1]), ToByte(s[2]), ToByte(s[3])) else 0
  }

  /** Four bytes determine their word, so comparing them is comparing words. */
  lemma BytesAreWord(w: bv32)
    ensures BytesWord(WordBytes(w)) == w
  {
    hide ToByte, Join, ByteAt;
    ByteIndex(ByteAt(w, 24)); ByteIndex(ByteAt(w, 16)); ByteIndex(ByteAt(w, 8)); ByteIndex(ByteAt(w, 0));
    JoinParts(w);
  }

  lemma JoinParts(w: bv32)
    ensures Join(ByteAt(w, 24), ByteAt(w, 16), ByteAt(w, 8), ByteAt(w, 0)) == w
  {
  }

  function Turned(c: bv32): bv32 { (c << 1) | (c >> 31) }

  /** One word turned by a bit, and the other laid over it. */
  function CombineWords(c: bv32, d: bv32): bv32 {
    Xor(Turned(c), d)
  }

  function FinishWord(w: bv32): bv32 {
    !w
  }

  /** The checksum of the library, by its table of 256 words. */
  function BzipChecksum(table: seq<bv32>): Checksum
    requires |table| == 256
  {
    Checksum(
      0xffff_ffff,
      (r: bv32, c: byte) requires |table| == 256 => UpdateWord(table, r, c),
      (r: bv32) => WordBytes(FinishWord(r)),
      (c, d) => WordBytes(CombineWords(BytesWord(c), BytesWord(d))))
  }

  lemma BzipIsGood(table: seq<bv32>)
    requires |table| == 256
    ensures BzipChecksum(table).Good()
  {
  }
}
