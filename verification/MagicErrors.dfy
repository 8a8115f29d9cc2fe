/** The error for a file that is not a compressed one at all. */
module MagicErrors {
  import opened Words
  import opened Checksums
  import opened Bits
  import opened BlockSender
  import opened StreamSteps
  import opened TextRead
  import ByteMaps
  import ColumnSteps
  import StreamFormat

  /** Byte n of a file may have this value: B, Z, h, and a digit from 1 to 9. */
  predicate RightAt(n: nat, v: byte) {
    if n == 0 then v == 0x42 else if n == 1 then v == 0x5a else if n == 2 then v == 0x68 else 0x31 <= v <= 0x39
  }

  /** One of the first four bytes is there and wrong, and the ones before it are right. */
  ghost predicate WrongMagic(bytes: seq<byte>) {
    exists n :: 0 <= n < 4 && n < |bytes| && !RightAt(n, bytes[n]) && forall i :: 0 <= i < n ==> RightAt(i, bytes[i])
  }

  /** Behind the magic number. */
  predicate Behind(s: State) { !s.stage.FileMagicAt? }

  /** No step behind the magic number reports a wrong one. */
  lemma StaysBehind(sum: Checksum, s: State, v: nat)
    requires Behind(s)
    ensures Next(sum, s, v).Go? ==> Behind(Next(sum, s, v).s)
    ensures Next(sum, s, v).Stop? ==> Next(sum, s, v).status != DataErrorMagic
  {
    hide Next, BlockBytes, SelectorOf, ByteMaps.Rank, ColumnSteps.Take, RowComes, StreamFormat.FileMagic, BlockMagic, StreamFormat.EndMagic, AlphaSize;
    match s.stage
    case FileMagicAt(n) =>
    case BlockStart => StartSteps(sum, s, v);
    case BlockMagicAt(n) => BlockMagicSteps(sum, s, n, v);
    case BlockCrc(got) => CrcSteps(sum, s, got, v);
    case RandBit(crc) => RandSteps(sum, s, crc, v);
    case OrigPtr(crc, n, p) => OrigPtrSteps(sum, s, crc, n, p, v);
    case Flags(h, flags) => FlagSteps(sum, s, h, flags, v);
    case Rows(h, flags, used) => RowSteps(sum, s, h, flags, used, v);
    case Groups(h, used) => GroupSteps(sum, s, h, used, v);
    case SelectorCount(h, used, nGroups) => CountSteps(sum, s, h, used, nGroups, v);
    case SelectorPlace(h, used, nGroups, nSelectors, js, j) => PlaceSteps(sum, s, h, used, nGroups, nSelectors, js, j, v);
    case Tables(h, used, selector, nGroups, lens, coding) => CodingSteps(sum, s, h, used, selector, nGroups, lens, coding, v);
    case Symbols(h, used, lens, selector, done, flat) => SymbolSteps(sum, s, h, used, lens, selector, done, flat, v);
    case Output(h, column) => ColumnStays(sum, s, h, column, v);
    case EndMagicAt(n) => EndMagicSteps(sum, s, n, v);
    case EndCrc(got) => EndCrcSteps(sum, s, got, v);
  }

  lemma ColumnStays(sum: Checksum, s: State, h: Header, column: seq<byte>, v: nat)
    requires s.stage == Output(h, column)
    ensures Next(sum, s, v).Go? ==> Behind(Next(sum, s, v).s)
    ensures Next(sum, s, v).Stop? ==> Next(sum, s, v).status != DataErrorMagic
  {
    hide BlockBytes;
  }

  lemma {:induction false} NeverBehind(sum: Checksum, s: State, bits: seq<bool>)
    requires Behind(s)
    ensures Proceed(sum, s, bits).status != DataErrorMagic
    decreases |bits|, Slack(s.stage)
  {
    hide Next, Width, Slack, Await, Behind;
    var a := Await(s.stage, bits);
    if a.Arrived? {
      StaysBehind(sum, s, a.v);
      if Next(sum, s, a.v).Go? {
        StepDescends(sum, s, bits);
        NeverBehind(sum, Next(sum, s, a.v).s, a.rest);
      }
    }
  }

  lemma {:induction false} MagicDecides(sum: Checksum, s: State, bytes: seq<byte>, n: nat)
    requires n < 4 && n <= |bytes| && s.stage == FileMagicAt(n) && forall i :: 0 <= i < n ==> RightAt(i, bytes[i])
    ensures Proceed(sum, s, BytesFrom(bytes, n) + []).status == DataErrorMagic <==> WrongMagic(bytes)
    decreases 4 - n
  {
    hide Proceed, BytesFrom, Next, RightAt;
    if n == |bytes| {
      NoneCome(sum, s, bytes, n);
    } else {
      ByteRead(sum, s, bytes, n, []);
      FileMagicSteps(sum, s, n, bytes[n]);
      MagicStep(s, n, bytes[n]);
      if RightAt(n, bytes[n]) {
        var s' := AfterFileByte(s, n, bytes[n]).s;
        if n < 3 {
          MagicDecides(sum, s', bytes, n + 1);
        } else {
          NeverBehind(sum, s', BytesFrom(bytes, 4) + []);
        }
      }
    }
  }

  lemma MagicStep(s: State, n: nat, v: byte)
    requires n < 4
    ensures var m := AfterFileByte(s, n, v);
            if RightAt(n, v) then m.Go? && (if n < 3 then m.s.stage == FileMagicAt(n + 1) else Behind(m.s)) else m == Stop(DataErrorMagic, s.output)
  {
  }

  lemma NoneCome(sum: Checksum, s: State, bytes: seq<byte>, n: nat)
    requires n == |bytes| && s.stage == FileMagicAt(n)
    ensures Proceed(sum, s, BytesFrom(bytes, n) + []).status == NeedMore
  {
  }

  /** A file is reported as no compressed one exactly if its first wrong byte is one of the first four. */
  lemma MagicErrorIff(sum: Checksum, bytes: seq<byte>)
    ensures DecodeStream(sum, BytesToBits(bytes)).status == DataErrorMagic <==> WrongMagic(bytes)
  {
    hide Proceed, BytesFrom, BytesToBits, WrongMagic;
    BytesFromIsBits(bytes, 0);
    assert bytes[0..] == bytes && BytesToBits(bytes) + [] == BytesToBits(bytes);
    MagicDecides(sum, Initial(), bytes, 0);
  }
}
