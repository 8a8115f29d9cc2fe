/** The buffer of literals and matches that a deflate block is made from. */
module SymbolBuffer {
  import opened Words
  import opened Lz77

  /** What three bytes of the buffer stand for: distance, low byte first, and literal or length. */
  function TripleToken(lo: byte, hi: byte, lc: byte): Token {
    if lo as int + hi as int * 256 == 0 then Literal(lc) else Match(lc as int + MIN_MATCH, lo as int + hi as int * 256)
  }

  class Symbols {
    const symBuf: array<byte>
    const symEnd: nat              // the buffer is full here
    var symNext: nat
    ghost var tokens: seq<Token>   // everything tallied so far
    ghost var flushed: nat         // how many of them have been flushed

    constructor (litBufsize: nat)
      requires litBufsize >= 2
      ensures Valid() && fresh(symBuf) && tokens == [] && symNext == 0 && symEnd == 3 * (litBufsize - 1)
    {
      symBuf, symEnd, symNext, tokens, flushed := new byte[3 * litBufsize], 3 * (litBufsize - 1), 0, [], 0;
    }

    ghost predicate Valid()
      reads this, symBuf
    {
      && symNext < symEnd && symEnd + 3 <= symBuf.Length && symEnd % 3 == 0 && Held()
    }

    /** The buffer holds the tokens that have not been flushed. */
    ghost predicate Held()
      reads this, symBuf
    {
      && flushed <= |tokens| && symNext == 3 * (|tokens| - flushed) <= symBuf.Length
      && forall i :: 0 <= i < |tokens| - flushed ==> TripleToken(symBuf[3 * i], symBuf[3 * i + 1], symBuf[3 * i + 2]) == tokens[flushed + i]
    }

    method Put(lo: byte, hi: byte, lc: byte) returns (full: bool)
      requires Valid()
      modifies this`symNext, this`tokens, symBuf
      ensures tokens == old(tokens) + [TripleToken(lo, hi, lc)]
      ensures Held() && full == (symNext == symEnd) && (!full ==> Valid())
    {
      ghost var n := |tokens| - flushed;
      symBuf[symNext], symBuf[symNext + 1], symBuf[symNext + 2] := lo, hi, lc;
      symNext := symNext + 3;
      tokens := tokens + [TripleToken(lo, hi, lc)];
      full := symNext == symEnd;
      forall i | 0 <= i < n + 1 ensures TripleToken(symBuf[3 * i], symBuf[3 * i + 1], symBuf[3 * i + 2]) == tokens[flushed + i] {
        if i < n { assert symBuf[3 * i] == old(symBuf[3 * i]) && symBuf[3 * i + 1] == old(symBuf[3 * i + 1]) && symBuf[3 * i + 2] == old(symBuf[3 * i + 2]); }
      }
    }

    method TallyLit(c: byte) returns (full: bool)
      requires Valid()
      modifies this`symNext, this`tokens, symBuf
      ensures tokens == old(tokens) + [Literal(c)]
      ensures Held() && full == (symNext == symEnd) && (!full ==> Valid())
    {
      full := Put(0, 0, c);
    }

    /** Distances fit sixteen bits, and lengths less three fit eight. */
    method TallyDist(distance: nat, length: nat) returns (full: bool)
      requires Valid() && 1 <= distance < 0x1_0000 && length <= 255
      modifies this`symNext, this`tokens, symBuf
      ensures tokens == old(tokens) + [Match(length + MIN_MATCH, distance)]
      ensures Held() && full == (symNext == symEnd) && (!full ==> Valid())
    {
      full := Put(distance % 256, distance / 256, length);
    }

    /** The block is flushed: its tokens are those tallied since the last one. */
    method Drain() returns (ghost block: seq<Token>)
      requires Held() && symEnd > 0 && symEnd + 3 <= symBuf.Length && symEnd % 3 == 0
      modifies this`symNext, this`flushed
      ensures Valid() && symNext == 0 && tokens == old(tokens) && block == tokens[old(flushed)..] && flushed == |tokens|
    {
      block := tokens[flushed..];
      symNext, flushed := 0, |tokens|;
    }
  }
}
