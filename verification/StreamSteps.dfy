/**
 * The decompressor as an automaton over the fields of the stream: what it waits for next, and what
 * the field does when it has come.
 */
module StreamSteps {
  import opened Words
  import opened Checksums
  import opened Bits
  import opened ByteMaps
  import opened RunCoding
  import opened BurrowsWheeler
  import opened MoveToFront
  import opened CanonicalHuffman
  import opened SymbolCoding
  import opened BlockFormat
  import opened BlockSender
  import opened ColumnSteps
  import opened StreamFormat

  // ---------- States ----------

  /** A block's checksum and start row. */
  datatype Header = Header(crc: seq<byte>, origPtr: nat)

  /** In the middle of a coding table: before its first length, before a step, or before the direction of a step. */
  datatype Coding = FirstLength | Steps(len: seq<int>, curr: int) | Turn(len: seq<int>, curr: int)

  /** The places where the decompressor reads, with what it has to remember there. */
  datatype Stage =
    | FileMagicAt(n: nat)
    | BlockStart
    | BlockMagicAt(n: nat)
    | BlockCrc(got: seq<byte>)
    | RandBit(crc: seq<byte>)
    | OrigPtr(crc: seq<byte>, n: nat, p: nat)
    | Flags(h: Header, flags: seq<bool>)
    | Rows(h: Header, flags: seq<bool>, used: seq<bool>)
    | Groups(h: Header, used: seq<bool>)
    | SelectorCount(h: Header, used: seq<bool>, nGroups: nat)
    | SelectorPlace(h: Header, used: seq<bool>, nGroups: nat, nSelectors: nat, js: seq<nat>, j: nat)
    | Tables(h: Header, used: seq<bool>, selector: seq<nat>, nGroups: nat, lens: seq<seq<int>>, coding: Coding)
    | Symbols(h: Header, used: seq<bool>, lens: seq<seq<int>>, selector: seq<nat>, done: nat, flat: Flat)
    | Output(h: Header, column: seq<byte>)
    | EndMagicAt(n: nat)
    | EndCrc(got: seq<byte>)

  /** Block size, checksum of the blocks so far, their bytes, and where reading goes on. */
  datatype State = State(k: nat, combined: seq<byte>, output: seq<byte>, stage: Stage) {
    ghost function At(stage': Stage): State {
      State(k, combined, output, stage')
    }
  }

  /** How a run ends; Overrun where the next position has no place in the array of selector positions. */
  datatype Status = NeedMore | StreamEnd | DataError | DataErrorMagic | Randomised | Overrun
  datatype Move = Go(s: State) | Stop(status: Status, output: seq<byte>)
  datatype Result = Result(status: Status, output: seq<byte>, rest: seq<bool>)

  ghost function Fail(s: State): Move {
    Stop(DataError, s.output)
  }

  // ---------- Waiting for a field ----------

  /** How many bits are read; none where the work goes on without reading. */
  ghost function Width(stage: Stage): nat {
    match stage
    case RandBit(_) => 1
    case Flags(_, _) => 1
    case Rows(_, flags, used) => if RowComes(flags, used) then 1 else 0
    case Groups(_, _) => 3
    case SelectorCount(_, _, _) => 15
    case SelectorPlace(_, _, _, nSelectors, js, _) => if |js| < nSelectors then 1 else 0
    case Tables(_, _, _, nGroups, lens, coding) => if |lens| >= nGroups then 0 else if coding == FirstLength then 5 else 1
    case Output(_, _) => 0
    case _ => 8
  }

  /** The next byte of the mapping table is in a row that is present. */
  ghost predicate RowComes(flags: seq<bool>, used: seq<bool>) {
    |used| < 256 && |used| / 16 < |flags| && flags[|used| / 16]
  }

  ghost function FieldAt(n: nat, bits: seq<bool>): Arrival {
    if |bits| < n then Missing else Arrived(Value(bits[..n]), bits[n..])
  }

  ghost function Await(stage: Stage, bits: seq<bool>): Arrival {
    if stage.Symbols? then SymbolAt(stage.lens, stage.selector, stage.done, bits) else FieldAt(Width(stage), bits)
  }

  // ---------- What a field does ----------

  ghost function AfterFileByte(s: State, n: nat, v: nat): Move {
    if n < 3 then
      if v == FileMagic(1)[n] then Go(s.At(FileMagicAt(n + 1))) else Stop(DataErrorMagic, s.output)
    else
      if 0x31 <= v <= 0x39 then Go(State(v - 0x30, s.combined, s.output, BlockStart)) else Stop(DataErrorMagic, s.output)
  }

  ghost function AfterStart(s: State, v: nat): Move {
    if v == 0x17 then Go(s.At(EndMagicAt(1))) else if v == 0x31 then Go(s.At(BlockMagicAt(1))) else Fail(s)
  }

  ghost function AfterBlockMagic(s: State, n: nat, v: nat): Move {
    if n >= 6 || v != BlockMagic()[n] then Fail(s) else Go(s.At(if n == 5 then BlockCrc([]) else BlockMagicAt(n + 1)))
  }

  ghost function AfterBlockCrc(s: State, got: seq<byte>, v: nat): Move {
    if v >= 256 then Fail(s) else if |got| == 3 then Go(s.At(RandBit(got + [v]))) else Go(s.At(BlockCrc(got + [v])))
  }

  ghost function AfterOrigPtr(s: State, crc: seq<byte>, n: nat, p: nat): Move {
    if n < 3 then Go(s.At(OrigPtr(crc, n, p)))
    else if p > 10 + 100_000 * s.k then Fail(s)
    else Go(s.At(Flags(Header(crc, p), [])))
  }

  ghost function AfterFlag(s: State, h: Header, flags: seq<bool>): Move {
    Go(s.At(if |flags| < 16 then Flags(h, flags) else Rows(h, flags, [])))
  }

  /** A byte of a row that is present, a whole row that is not, or the end of the table. */
  ghost function AfterRows(s: State, h: Header, flags: seq<bool>, used: seq<bool>, v: nat): Move {
    if RowComes(flags, used) then Go(s.At(Rows(h, flags, used + [v == 1])))
    else if |used| < 256 then Go(s.At(Rows(h, flags, used + NoRow())))
    else if |used| > 256 || Rank(used, 256) == 0 then Fail(s)
    else Go(s.At(Groups(h, used)))
  }

  ghost function NoRow(): (r: seq<bool>)
    ensures |r| == 16 && forall i :: 0 <= i < 16 ==> !r[i]
  {
    seq(16, _ => false)
  }

  ghost function AfterPosition(s: State, h: Header, used: seq<bool>, nGroups: nat, nSelectors: nat, js: seq<nat>, j: nat, v: nat): Move {
    if |js| >= nSelectors then Go(s.At(Tables(h, used, SelectorOf(nGroups, js), nGroups, [], FirstLength)))
    else if v == 0 then
      if |js| >= MAX_SELECTORS then Stop(Overrun, s.output) else Go(s.At(SelectorPlace(h, used, nGroups, nSelectors, js + [j], 0)))
    else if j + 1 >= nGroups then Fail(s)
    else Go(s.At(SelectorPlace(h, used, nGroups, nSelectors, js, j + 1)))
  }

  /** The tables that the list positions stand for. */
  ghost function SelectorOf(nGroups: nat, js: seq<nat>): seq<nat> {
    if forall i :: 0 <= i < |js| ==> js[i] < nGroups then
      seq(|js|, i requires 0 <= i < |js| && js[i] < nGroups && (forall i :: 0 <= i < |js| ==> js[i] < nGroups) => TablesAfter(nGroups, js, i)[js[i]])
    else []
  }

  lemma SelectorIs(nGroups: nat, js: seq<nat>, selector: seq<nat>)
    requires Positions(nGroups, js, selector)
    ensures SelectorOf(nGroups, js) == selector
  {
    hide TablesAfter;
  }

  /** The number of symbols of a block: two for runs, one for every byte in use but the first, and the end mark. */
  ghost function AlphaSize(used: seq<bool>): (n: nat)
    ensures n >= 2
  {
    if |used| == 256 then Rank(used, 256) + 2 else 2
  }

  ghost function AfterCoding(s: State, h: Header, used: seq<bool>, selector: seq<nat>, nGroups: nat, lens: seq<seq<int>>, coding: Coding, v: nat): Move {
    if |lens| >= nGroups then Go(s.At(Symbols(h, used, lens, selector, 0, Start())))
    else
      match coding
      case FirstLength => Lengthen(s, h, used, selector, nGroups, lens, [], v)
      case Steps(len, curr) =>
        if v == 1 then Go(s.At(Tables(h, used, selector, nGroups, lens, Turn(len, curr))))
        else if |len| + 1 < AlphaSize(used) then Go(s.At(Tables(h, used, selector, nGroups, lens, Steps(len + [curr], curr))))
        else Go(s.At(Tables(h, used, selector, nGroups, lens + [len + [curr]], FirstLength)))
      case Turn(len, curr) => Lengthen(s, h, used, selector, nGroups, lens, len, if v == 0 then curr + 1 else curr - 1)
  }

  /** A new current length, which has to be in range. */
  ghost function Lengthen(s: State, h: Header, used: seq<bool>, selector: seq<nat>, nGroups: nat, lens: seq<seq<int>>, len: seq<int>, curr: int): Move {
    if curr < 1 || curr > LONGEST_CODE then Fail(s) else Go(s.At(Tables(h, used, selector, nGroups, lens, Steps(len, curr))))
  }

  ghost function AfterSymbol(s: State, h: Header, used: seq<bool>, lens: seq<seq<int>>, selector: seq<nat>, done: nat, flat: Flat, sym: nat): Move {
    match Take(flat, sym, AlphaSize(used) - 2, 100_000 * s.k)
    case Refused => Fail(s)
    case More(flat') => Go(s.At(Symbols(h, used, lens, selector, done + 1, flat')))
    case Complete(ranks) => AfterColumn(s, h, Mapped(Names(used), ranks))
  }

  /** The whole column is there: the start row has to be one of its rows. */
  ghost function AfterColumn(s: State, h: Header, column: seq<byte>): Move {
    if h.origPtr >= |column| then Fail(s) else Go(s.At(Output(h, column)))
  }

  /** The bytes of a block, and whether it ends cleanly. */
  ghost function BlockBytes(column: seq<byte>, origPtr: nat): Expansion
    requires origPtr < |column|
  {
    Expand(Unsorted(column, origPtr, |column|), Fetched(column, origPtr, |column|))
  }

  ghost function AfterOutput(sum: Checksum, s: State, h: Header, column: seq<byte>): Move {
    if h.origPtr >= |column| then Fail(s)
    else
      var e := BlockBytes(column, h.origPtr);
      if !e.complete || sum.OfBytes(e.bytes) != h.crc then Stop(DataError, s.output + e.bytes)
      else Go(State(s.k, sum.combine(s.combined, h.crc), s.output + e.bytes, BlockStart))
  }

  ghost function AfterEndMagic(s: State, n: nat, v: nat): Move {
    if n >= 6 || v != EndMagic()[n] then Fail(s) else Go(s.At(if n == 5 then EndCrc([]) else EndMagicAt(n + 1)))
  }

  ghost function AfterEndCrc(s: State, got: seq<byte>, v: nat): Move {
    if v >= 256 then Fail(s)
    else if |got| < 3 then Go(s.At(EndCrc(got + [v])))
    else if got + [v] == s.combined then Stop(StreamEnd, s.output)
    else Fail(s)
  }

  ghost function Next(sum: Checksum, s: State, v: nat): Move {
    match s.stage
    case FileMagicAt(n) => AfterFileByte(s, n, v)
    case BlockStart => AfterStart(s, v)
    case BlockMagicAt(n) => AfterBlockMagic(s, n, v)
    case BlockCrc(got) => AfterBlockCrc(s, got, v)
    case RandBit(crc) => if v == 1 then Stop(Randomised, s.output) else Go(s.At(OrigPtr(crc, 0, 0)))
    case OrigPtr(crc, n, p) => AfterOrigPtr(s, crc, n + 1, 256 * p + v)
    case Flags(h, flags) => AfterFlag(s, h, flags + [v == 1])
    case Rows(h, flags, used) => AfterRows(s, h, flags, used, v)
    case Groups(h, used) => if v < 2 || v > 6 then Fail(s) else Go(s.At(SelectorCount(h, used, v)))
    case SelectorCount(h, used, nGroups) => if v < 1 then Fail(s) else Go(s.At(SelectorPlace(h, used, nGroups, v, [], 0)))
    case SelectorPlace(h, used, nGroups, nSelectors, js, j) => AfterPosition(s, h, used, nGroups, nSelectors, js, j, v)
    case Tables(h, used, selector, nGroups, lens, coding) => AfterCoding(s, h, used, selector, nGroups, lens, coding, v)
    case Symbols(h, used, lens, selector, done, flat) => AfterSymbol(s, h, used, lens, selector, done, flat, v)
    case Output(h, column) => AfterOutput(sum, s, h, column)
    case EndMagicAt(n) => AfterEndMagic(s, n, v)
    case EndCrc(got) => AfterEndCrc(s, got, v)
  }

  // ---------- Steps one by one ----------

  lemma WidthIs(stage: Stage, n: nat)
    requires
      match n
      case 8 => stage.FileMagicAt? || stage.BlockStart? || stage.BlockMagicAt? || stage.BlockCrc? || stage.OrigPtr? || stage.EndMagicAt? || stage.EndCrc?
      case 15 => stage.SelectorCount?
      case 5 => stage.Tables? && |stage.lens| < stage.nGroups && stage.coding == FirstLength
      case 3 => stage.Groups?
      case 1 =>
        || stage.RandBit? || stage.Flags? || (stage.Rows? && RowComes(stage.flags, stage.used))
        || (stage.SelectorPlace? && |stage.js| < stage.nSelectors) || (stage.Tables? && |stage.lens| < stage.nGroups && stage.coding != FirstLength)
      case 0 => (stage.Rows? && !RowComes(stage.flags, stage.used)) || (stage.SelectorPlace? && |stage.js| >= stage.nSelectors) || (stage.Tables? && |stage.lens| >= stage.nGroups)
      case _ => false
    ensures Width(stage) == n
  {
  }

  lemma FileMagicSteps(sum: Checksum, s: State, n: nat, v: nat)
    requires s.stage == FileMagicAt(n)
    ensures Next(sum, s, v) == AfterFileByte(s, n, v)
  {
  }

  lemma StartSteps(sum: Checksum, s: State, v: nat)
    requires s.stage == BlockStart
    ensures Next(sum, s, v) == AfterStart(s, v)
  {
  }

  lemma BlockMagicSteps(sum: Checksum, s: State, n: nat, v: nat)
    requires s.stage == BlockMagicAt(n)
    ensures Next(sum, s, v) == AfterBlockMagic(s, n, v)
  {
  }

  lemma CrcSteps(sum: Checksum, s: State, got: seq<byte>, v: nat)
    requires s.stage == BlockCrc(got)
    ensures Next(sum, s, v) == AfterBlockCrc(s, got, v)
  {
  }

  lemma RandSteps(sum: Checksum, s: State, crc: seq<byte>, v: nat)
    requires s.stage == RandBit(crc)
    ensures Next(sum, s, v) == if v == 1 then Stop(Randomised, s.output) else Go(s.At(OrigPtr(crc, 0, 0)))
  {
  }

  lemma OrigPtrSteps(sum: Checksum, s: State, crc: seq<byte>, n: nat, p: nat, v: nat)
    requires s.stage == OrigPtr(crc, n, p)
    ensures Next(sum, s, v) == AfterOrigPtr(s, crc, n + 1, 256 * p + v)
  {
  }

  lemma FlagSteps(sum: Checksum, s: State, h: Header, flags: seq<bool>, v: nat)
    requires s.stage == Flags(h, flags)
    ensures Next(sum, s, v) == AfterFlag(s, h, flags + [v == 1])
  {
  }

  lemma RowSteps(sum: Checksum, s: State, h: Header, flags: seq<bool>, used: seq<bool>, v: nat)
    requires s.stage == Rows(h, flags, used)
    ensures Next(sum, s, v) == AfterRows(s, h, flags, used, v)
  {
  }

  lemma GroupSteps(sum: Checksum, s: State, h: Header, used: seq<bool>, v: nat)
    requires s.stage == Groups(h, used)
    ensures Next(sum, s, v) == if v < 2 || v > 6 then Fail(s) else Go(s.At(SelectorCount(h, used, v)))
  {
  }

  lemma CountSteps(sum: Checksum, s: State, h: Header, used: seq<bool>, nGroups: nat, v: nat)
    requires s.stage == SelectorCount(h, used, nGroups)
    ensures Next(sum, s, v) == if v < 1 then Fail(s) else Go(s.At(SelectorPlace(h, used, nGroups, v, [], 0)))
  {
  }

  lemma PlaceSteps(sum: Checksum, s: State, h: Header, used: seq<bool>, nGroups: nat, nSelectors: nat, js: seq<nat>, j: nat, v: nat)
    requires s.stage == SelectorPlace(h, used, nGroups, nSelectors, js, j)
    ensures Next(sum, s, v) == AfterPosition(s, h, used, nGroups, nSelectors, js, j, v)
  {
  }

  lemma CodingSteps(sum: Checksum, s: State, h: Header, used: seq<bool>, selector: seq<nat>, nGroups: nat, lens: seq<seq<int>>, coding: Coding, v: nat)
    requires s.stage == Tables(h, used, selector, nGroups, lens, coding)
    ensures Next(sum, s, v) == AfterCoding(s, h, used, selector, nGroups, lens, coding, v)
  {
  }

  lemma SymbolSteps(sum: Checksum, s: State, h: Header, used: seq<bool>, lens: seq<seq<int>>, selector: seq<nat>, done: nat, flat: Flat, v: nat)
    requires s.stage == Symbols(h, used, lens, selector, done, flat)
    ensures Next(sum, s, v) == AfterSymbol(s, h, used, lens, selector, done, flat, v)
  {
  }

  lemma EndMagicSteps(sum: Checksum, s: State, n: nat, v: nat)
    requires s.stage == EndMagicAt(n)
    ensures Next(sum, s, v) == AfterEndMagic(s, n, v)
  {
  }

  lemma EndCrcSteps(sum: Checksum, s: State, got: seq<byte>, v: nat)
    requires s.stage == EndCrc(got)
    ensures Next(sum, s, v) == AfterEndCrc(s, got, v)
  {
  }

  // ---------- What every state keeps ----------

  ghost predicate InUse(used: seq<bool>) {
    |used| == 256 && Rank(used, 256) >= 1
  }

  /** The lists are code lengths for n symbols each. */
  ghost predicate ListsOver(lens: seq<seq<int>>, n: nat) {
    forall t :: 0 <= t < |lens| ==> Lengths(lens[t]) && |lens[t]| == n
  }

  ghost predicate AllBelow(s: seq<nat>, n: nat) {
    forall i :: 0 <= i < |s| ==> s[i] < n
  }

  ghost predicate CodingOver(coding: Coding, n: nat) {
    coding == FirstLength || (|coding.len| < n && Lengths(coding.len) && 1 <= coding.curr <= LONGEST_CODE)
  }

  /** Counts, tables and rows in every state of a run are within the bounds the decompressor relies on. */
  ghost predicate Sound(s: State) {
    && (s.stage.FileMagicAt? || 1 <= s.k <= 9)
    && match s.stage
       case FileMagicAt(n) => n <= 3
       case BlockMagicAt(n) => 1 <= n <= 5
       case BlockCrc(got) => |got| <= 3
       case OrigPtr(_, n, _) => n <= 2
       case Flags(_, flags) => |flags| < 16
       case Rows(_, flags, used) => |flags| == 16 && |used| <= 256 && (|used| % 16 == 0 || flags[|used| / 16])
       case Groups(_, used) => InUse(used)
       case SelectorCount(_, used, nGroups) => InUse(used) && 2 <= nGroups <= 6
       case SelectorPlace(_, used, nGroups, nSelectors, js, j) => InUse(used) && 2 <= nGroups <= 6 && AllBelow(js, nGroups) && j < nGroups && |js| <= nSelectors && |js| <= MAX_SELECTORS
       case Tables(_, used, selector, nGroups, lens, coding) =>
         InUse(used) && 2 <= nGroups <= 6 && AllBelow(selector, nGroups) && |selector| <= MAX_SELECTORS && |lens| <= nGroups && ListsOver(lens, AlphaSize(used)) && CodingOver(coding, AlphaSize(used))
       case Symbols(_, used, lens, selector, _, flat) =>
         InUse(used) && AllBelow(selector, |lens|) && ListsOver(lens, AlphaSize(used)) && Below(flat, AlphaSize(used) - 2)
       case Output(h, column) => h.origPtr < |column|
       case EndMagicAt(n) => 1 <= n <= 5
       case EndCrc(got) => |got| <= 3
       case _ => true
  }

  lemma RowsSound(s: State, h: Header, flags: seq<bool>, used: seq<bool>, v: nat)
    requires s.stage == Rows(h, flags, used) && Sound(s) && AfterRows(s, h, flags, used, v).Go?
    ensures Sound(AfterRows(s, h, flags, used, v).s)
  {
    hide Rank;
  }

  lemma PlacesSound(s: State, h: Header, used: seq<bool>, nGroups: nat, nSelectors: nat, js: seq<nat>, j: nat, v: nat)
    requires s.stage == SelectorPlace(h, used, nGroups, nSelectors, js, j) && Sound(s)
    requires AfterPosition(s, h, used, nGroups, nSelectors, js, j, v).Go?
    ensures Sound(AfterPosition(s, h, used, nGroups, nSelectors, js, j, v).s)
  {
    hide Rank, TablesAfter, SelectorOf;
    if |js| >= nSelectors { SelectorInRange(nGroups, js); }
  }

  lemma {:induction false} TablesInRange(nGroups: nat, js: seq<nat>, m: nat)
    requires m <= |js| && AllBelow(js, nGroups)
    ensures AllBelow(TablesAfter(nGroups, js, m), nGroups)
  {
    if m > 0 {
      TablesInRange(nGroups, js, m - 1);
      TablesMore(nGroups, js, m - 1);
      FrontBelow(TablesAfter(nGroups, js, m - 1), js[m - 1], nGroups);
    } else {
      TablesFirst(nGroups, js);
    }
  }

  lemma FrontBelow(list: seq<nat>, k: nat, n: nat)
    requires k < |list| && AllBelow(list, n)
    ensures AllBelow(ToFront(list, k), n)
  {
  }

  lemma SelectorInRange(nGroups: nat, js: seq<nat>)
    requires AllBelow(js, nGroups)
    ensures |SelectorOf(nGroups, js)| == |js| && AllBelow(SelectorOf(nGroups, js), nGroups)
  {
    hide TablesAfter;
    forall i | 0 <= i < |js| ensures SelectorOf(nGroups, js)[i] < nGroups { TablesInRange(nGroups, js, i); }
  }

  lemma CodingSound(s: State, h: Header, used: seq<bool>, selector: seq<nat>, nGroups: nat, lens: seq<seq<int>>, coding: Coding, v: nat)
    requires s.stage == Tables(h, used, selector, nGroups, lens, coding) && Sound(s)
    requires AfterCoding(s, h, used, selector, nGroups, lens, coding, v).Go?
    ensures Sound(AfterCoding(s, h, used, selector, nGroups, lens, coding, v).s)
  {
    hide Rank;
    if |used| == 256 && Rank(used, 256) >= 1 { BelowStart(Rank(used, 256)); }
  }

  lemma SymbolSound(s: State, h: Header, used: seq<bool>, lens: seq<seq<int>>, selector: seq<nat>, done: nat, flat: Flat, v: nat)
    requires s.stage == Symbols(h, used, lens, selector, done, flat) && Sound(s) && v < AlphaSize(used)
    requires AfterSymbol(s, h, used, lens, selector, done, flat, v).Go?
    ensures Sound(AfterSymbol(s, h, used, lens, selector, done, flat, v).s)
  {
    hide Rank, Step, Mapped, Names, Below;
    if v <= AlphaSize(used) - 2 { BelowStep(flat, v, AlphaSize(used) - 2); }
  }

  /** Every state of a run is sound. */
  lemma NextSound(sum: Checksum, s: State, v: nat)
    requires Sound(s) && Next(sum, s, v).Go? && (s.stage.Symbols? ==> v < AlphaSize(s.stage.used))
    ensures Sound(Next(sum, s, v).s)
  {
    hide AfterRows, AfterPosition, AfterCoding, AfterSymbol, Rank, FileMagic, BlockMagic, EndMagic, BlockBytes, ListsOver, Below, CodingOver, AlphaSize;
    match s.stage
    case Rows(h, flags, used) => RowsSound(s, h, flags, used, v);
    case SelectorPlace(h, used, nGroups, nSelectors, js, j) => PlacesSound(s, h, used, nGroups, nSelectors, js, j, v);
    case Tables(h, used, selector, nGroups, lens, coding) => CodingSound(s, h, used, selector, nGroups, lens, coding, v);
    case Symbols(h, used, lens, selector, done, flat) => SymbolSound(s, h, used, lens, selector, done, flat, v);
    case _ =>
  }

  // ---------- Whole runs ----------

  /** A bound on the steps that can follow without reading. */
  ghost function Slack(stage: Stage): nat {
    match stage
    case Rows(_, _, used) => if |used| < 256 then 257 - |used| else 1
    case SelectorPlace(_, _, _, nSelectors, js, _) => if |js| >= nSelectors then 2 else 0
    case Tables(_, _, _, nGroups, lens, _) => if |lens| >= nGroups then 1 else 0
    case Output(_, _) => 1
    case _ => 0
  }

  lemma NextDescends(sum: Checksum, s: State, v: nat)
    requires !s.stage.Symbols? && Width(s.stage) == 0 && Next(sum, s, v).Go?
    ensures Slack(Next(sum, s, v).s.stage) < Slack(s.stage)
  {
    hide Expand, Unsorted, Fetched, SelectorOf;
  }

  lemma AwaitTakes(stage: Stage, bits: seq<bool>)
    requires Await(stage, bits).Arrived?
    ensures |Await(stage, bits).rest| <= |bits|
    ensures stage.Symbols? || Width(stage) > 0 ==> |Await(stage, bits).rest| < |bits|
  {
    if stage.Symbols? { ScanTakes(stage.lens[stage.selector[stage.done / G_SIZE]], 1, bits); }
  }

  /** Reads as far as the bits go, or to the end of the stream, or to an error. */
  ghost function Proceed(sum: Checksum, s: State, bits: seq<bool>): Result
    decreases |bits|, Slack(s.stage)
  {
    match Await(s.stage, bits)
    case Missing => Result(NeedMore, s.output, bits)
    case Invalid => Result(DataError, s.output, bits)
    case Arrived(v, rest) =>
      AwaitTakes(s.stage, bits);
      match Next(sum, s, v)
      case Stop(status, output) => Result(status, output, rest)
      case Go(s') =>
        if !s.stage.Symbols? && Width(s.stage) == 0 then NextDescends(sum, s, v); Proceed(sum, s', rest)
        else Proceed(sum, s', rest)
  }

  ghost function Follow(sum: Checksum, m: Move, rest: seq<bool>): Result {
    match m
    case Stop(status, output) => Result(status, output, rest)
    case Go(s) => Proceed(sum, s, rest)
  }

  ghost function Initial(): State {
    State(0, [0, 0, 0, 0], [], FileMagicAt(0))
  }

  /** What a compressed stream stands for, how it ends, and the bits behind it. */
  ghost function DecodeStream(sum: Checksum, bits: seq<bool>): Result {
    Proceed(sum, Initial(), bits)
  }

  lemma ProceedStep(sum: Checksum, s: State, bits: seq<bool>)
    requires Await(s.stage, bits).Arrived?
    ensures var a := Await(s.stage, bits); Proceed(sum, s, bits) == Follow(sum, Next(sum, s, a.v), a.rest)
  {
    hide Next, Await;
  }

  /** A field of n bits has come, with more bits behind it. */
  lemma FieldRead(sum: Checksum, s: State, n: nat, unread: seq<bool>, later: seq<bool>)
    requires !s.stage.Symbols? && Width(s.stage) == n <= |unread|
    ensures Proceed(sum, s, unread + later) == Follow(sum, Next(sum, s, Value(unread[..n])), unread[n..] + later)
  {
    hide Next, Width, Proceed, Follow, Value;
    assert (unread + later)[..n] == unread[..n] && (unread + later)[n..] == unread[n..] + later;
    ProceedStep(sum, s, unread + later);
  }

  /** Work that goes on without reading. */
  lemma NothingRead(sum: Checksum, s: State, bits: seq<bool>)
    requires !s.stage.Symbols? && Width(s.stage) == 0
    ensures Proceed(sum, s, bits) == Follow(sum, Next(sum, s, 0), bits)
  {
    hide Next, Width, Proceed, Follow;
    assert bits[..0] == [] && bits[0..] == bits;
    ProceedStep(sum, s, bits);
  }

  lemma NextOutput(sum: Checksum, s: State, v: nat)
    ensures match Next(sum, s, v)
            case Go(s') => s.output <= s'.output
            case Stop(status, output) => s.output <= output && status != NeedMore
  {
    hide Next, AfterOutput, SelectorOf, Rank, Take, RowComes, FileMagic, BlockMagic, EndMagic, Mapped, Names, AlphaSize;
    match s.stage
    case FileMagicAt(n) => FileMagicSteps(sum, s, n, v);
    case BlockStart => StartSteps(sum, s, v);
    case BlockMagicAt(n) => BlockMagicSteps(sum, s, n, v);
    case BlockCrc(got) => CrcSteps(sum, s, got, v);
    case RandBit(crc) => RandSteps(sum, s, crc, v);
    case OrigPtr(crc, n, p) => OrigPtrSteps(sum, s, crc, n, p, v);
    case Flags(h, flags) => FlagSteps(sum, s, h, flags, v);
    case Rows(h, flags, used) => RowSteps(sum, s, h, flags, used, v);
    case Groups(h, used) => GroupSteps(sum, s, h, used, v);
    case SelectorCount(h, used, nGroups) => CountSteps(sum, s, h, used, nGroups, v);
    case SelectorPlace(h, used, nGroups, nSelectors, js, j) => PlaceSteps(sum, s, h, used, nGroups, nSelectors, js, j, v);
    case Tables(h, used, selector, nGroups, lens, coding) => CodingSteps(sum, s, h, used, selector, nGroups, lens, coding, v);
    case Symbols(h, used, lens, selector, done, flat) => SymbolSteps(sum, s, h, used, lens, selector, done, flat, v);
    case Output(h, column) => BlockOutput(sum, s, h, column, v);
    case EndMagicAt(n) => EndMagicSteps(sum, s, n, v);
    case EndCrc(got) => EndCrcSteps(sum, s, got, v);
  }

  lemma BlockOutput(sum: Checksum, s: State, h: Header, column: seq<byte>, v: nat)
    requires s.stage == Output(h, column)
    ensures match Next(sum, s, v)
            case Go(s') => s.output <= s'.output
            case Stop(status, output) => s.output <= output && status != NeedMore
  {
    hide BlockBytes;
  }

  /** What has been put out stays put out. */
  lemma {:induction false} OutputGrows(sum: Checksum, s: State, bits: seq<bool>)
    ensures s.output <= Proceed(sum, s, bits).output
    decreases |bits|, Slack(s.stage)
  {
    hide Next, Width, Slack, Await;
    var a := Await(s.stage, bits);
    if a.Arrived? {
      NextOutput(sum, s, a.v);
      if Next(sum, s, a.v).Go? {
        StepDescends(sum, s, bits);
        OutputGrows(sum, Next(sum, s, a.v).s, a.rest);
      }
    }
  }

  lemma StepDescends(sum: Checksum, s: State, bits: seq<bool>)
    requires var a := Await(s.stage, bits); a.Arrived? && Next(sum, s, a.v).Go?
    ensures var a := Await(s.stage, bits);
            |a.rest| < |bits| || (|a.rest| == |bits| && Slack(Next(sum, s, a.v).s.stage) < Slack(s.stage))
  {
    hide Next, Slack, SymbolAt;
    AwaitTakes(s.stage, bits);
    if !s.stage.Symbols? && Width(s.stage) == 0 { NextDescends(sum, s, Await(s.stage, bits).v); }
  }

  /** A run that stops for want of bits goes on as if all had been there from the start; any other is not changed by what follows. */
  lemma {:induction false} MoreInput(sum: Checksum, s: State, bits: seq<bool>, later: seq<bool>)
    ensures var r, all := Proceed(sum, s, bits), Proceed(sum, s, bits + later);
            if r.status == NeedMore then r.output <= all.output
            else all.status == r.status && all.output == r.output && all.rest == r.rest + later
    decreases |bits|, Slack(s.stage)
  {
    hide Next, Width, Slack, Await;
    var a := Await(s.stage, bits);
    if a.Missing? {
      OutputGrows(sum, s, bits + later);
    } else {
      AwaitMore(s.stage, bits, later);
      if a.Arrived? {
        NextOutput(sum, s, a.v);
        if Next(sum, s, a.v).Go? {
          StepDescends(sum, s, bits);
          MoreInput(sum, Next(sum, s, a.v).s, a.rest, later);
        }
      }
    }
  }

  lemma AwaitMore(stage: Stage, bits: seq<bool>, later: seq<bool>)
    requires !Await(stage, bits).Missing?
    ensures Await(stage, bits + later) == Await(stage, bits).With(later)
  {
    hide Scan, Value, Width;
    if stage.Symbols? {
      if Selects(stage.lens, stage.selector, stage.done) {
        ScanMore(stage.lens[stage.selector[stage.done / G_SIZE]], 1, bits, later);
      }
    } else {
      var n := Width(stage);
      assert (bits + later)[..n] == bits[..n] && (bits + later)[n..] == bits[n..] + later;
    }
  }
}
