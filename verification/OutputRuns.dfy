/** What a run-length output loop has delivered and still owes, in the middle of a block. */
module OutputRuns {
  import opened Words
  import opened RunCoding

  /** The whole output, when `written` is stored, len bytes c are owed and p block bytes are used up. */
  ghost function Total(s: seq<byte>, extra: byte, written: seq<byte>, c: byte, len: nat, p: nat): Expansion {
    ExpandFrom(s, p, extra).Prepend(written + Repeat(c, len))
  }

  lemma TotalAtStart(s: seq<byte>, extra: byte, c: byte)
    ensures Total(s, extra, [], c, 0, 0) == Expand(s, extra)
  {
    assert [] + Repeat(c, 0) == [];
  }

  lemma TotalAfterWrite(s: seq<byte>, extra: byte, written: seq<byte>, c: byte, due: nat, left: nat, p: nat)
    requires left <= due
    ensures Total(s, extra, written, c, due, p) == Total(s, extra, written + Repeat(c, due - left), c, left, p)
  {
    assert written + Repeat(c, due) == written + Repeat(c, due - left) + Repeat(c, left);
  }

  lemma TotalAfterStart(s: seq<byte>, extra: byte, written: seq<byte>, c: byte, p: nat)
    requires p < |s|
    ensures Total(s, extra, written, c, 0, p) ==
            Total(s, extra, written, s[p], RunLength(s, p, extra), p + RunWidth(s, p))
  {
    var e, r := ExpandFrom(s, p + RunWidth(s, p), extra), Repeat(s[p], RunLength(s, p, extra));
    assert written + Repeat(c, 0) == written;
    assert written + (r + e.bytes) == (written + r) + e.bytes;
  }

  lemma TotalAtEnd(s: seq<byte>, extra: byte, written: seq<byte>, c: byte, p: nat)
    requires p >= |s|
    ensures Total(s, extra, written, c, 0, p) == Expansion(written, p == |s|)
  {
    assert written + Repeat(c, 0) + [] == written;
  }
}
