/** The DEFLATE format (section 3.2 of RFC 1951) as a grammar: what a well-formed stream is, and what it stands
    for, without a machine that reads it.

    A stream is a row of blocks of which exactly the last is final.  A stored block is its length, the length's
    complement and the bytes; a compressed block is its tables, elements each of which is a literal or a copy
    from within the output so far, and the end-of-block codeword.  The abstract decoder accepts exactly the
    well-formed streams, with exactly the output they stand for. */
module Format {
  import opened Bits
  import opened BitIo
  import opened Errors
  import opened Canonical
  import opened Huffman
  import opened Symbols
  import opened Window
  import opened RunLengths
  import opened Blocks
  import opened DynamicBlocks
  import I = Inflate
  import S = Streaming

  // ----- The grammar -----

  /** A literal, or a length symbol and a distance symbol with their extra bits. */
  datatype Element = Byte(b: byte) | Copy(length: EncodedSymbol, distance: EncodedSymbol)

  datatype Tables =
    | FixedTables
    | DynamicTables(hlit: nat, hdist: nat, n: nat, bw: seq<nat>, codes: seq<WidthCode>)

  datatype Block =
    | StoredBlock(isFinal: bool, pad: BitString, data: seq<byte>)
    | CodedBlock(isFinal: bool, tables: Tables, elements: seq<Element>)

  ghost function LiteralLengths(t: Tables): seq<nat> {
    match t
    case FixedTables => FixedLiteralLengths()
    case DynamicTables(hlit, _, _, _, codes) =>
      var all := Unpack(codes, []); if hlit <= |all| then all[..hlit] else all
  }

  ghost function DistanceLengths(t: Tables): seq<nat> {
    match t
    case FixedTables => FixedDistanceLengths()
    case DynamicTables(hlit, _, _, _, codes) =>
      var all := Unpack(codes, []); if hlit <= |all| then all[hlit..] else []
  }

  /** The tables describe two usable codes, with a codeword for end-of-block. */
  ghost predicate TablesOk(t: Tables) {
    (t.DynamicTables? ==> Describing(t.hlit, t.hdist, t.n, t.bw, t.codes))
    && Acceptable(LiteralLengths(t)) && Acceptable(DistanceLengths(t))
    && |LiteralLengths(t)| > END_OF_BLOCK && LiteralLengths(t)[END_OF_BLOCK] > 0
  }

  /** A symbol with a codeword, and extra bits as its row of the table says. */
  ghost predicate SymbolOk(lengths: seq<nat>, e: EncodedSymbol, row: (nat, nat)) {
    e.code < |lengths| && lengths[e.code] > 0 && e.extraBits == row.1 && e.extra < Pow2(e.extraBits)
  }

  ghost function RowOfLength(code: nat): (nat, nat)
    requires 257 <= code <= 285
  {
    LENGTH_TABLE[code - 257]
  }

  ghost function RowOfDistance(code: nat): (nat, nat)
    requires code < 30
  {
    DISTANCE_TABLE[code]
  }

  ghost function CopyLength(e: EncodedSymbol): nat
    requires 257 <= e.code <= 285
  {
    RowOfLength(e.code).0 + e.extra
  }

  ghost function CopyDistance(e: EncodedSymbol): nat
    requires e.code < 30
  {
    RowOfDistance(e.code).0 + e.extra
  }

  ghost predicate ElementOk(lit: seq<nat>, dist: seq<nat>, e: Element, produced: nat) {
    match e
    case Byte(b) => b < |lit| && lit[b] > 0
    case Copy(l, d) =>
      257 <= l.code <= 285 && SymbolOk(lit, l, RowOfLength(l.code))
      && d.code < 30 && SymbolOk(dist, d, RowOfDistance(d.code))
      && 1 <= CopyDistance(d) <= produced
  }

  ghost function Perform(lit: seq<nat>, dist: seq<nat>, e: Element, out: seq<byte>): seq<byte>
    requires ElementOk(lit, dist, e, |out|)
  {
    match e
    case Byte(b) => out + [b]
    case Copy(l, d) => CopyBytewise(out, CopyDistance(d), CopyLength(l))
  }

  ghost predicate ElementsOk(lit: seq<nat>, dist: seq<nat>, es: seq<Element>, out: seq<byte>)
    decreases |es|
  {
    es == []
    || (ElementOk(lit, dist, es[0], |out|) && ElementsOk(lit, dist, es[1..], Perform(lit, dist, es[0], out)))
  }

  ghost function PerformAll(lit: seq<nat>, dist: seq<nat>, es: seq<Element>, out: seq<byte>): seq<byte>
    requires ElementsOk(lit, dist, es, out)
    decreases |es|
  {
    if es == [] then out else PerformAll(lit, dist, es[1..], Perform(lit, dist, es[0], out))
  }

  ghost predicate Codes(lit: seq<nat>, dist: seq<nat>) {
    Acceptable(lit) && Acceptable(dist) && |lit| > END_OF_BLOCK && lit[END_OF_BLOCK] > 0
  }

  ghost function ElementText(lit: seq<nat>, dist: seq<nat>, e: Element): BitString
    requires WidthsOk(SortedEntries(lit)) && WidthsOk(SortedEntries(dist))
    requires exists produced: nat :: ElementOk(lit, dist, e, produced)
  {
    match e
    case Byte(b) => Word(lit, b)
    case Copy(l, d) => SymbolBits(lit, l) + SymbolBits(dist, d)
  }

  ghost function ElementsText(lit: seq<nat>, dist: seq<nat>, es: seq<Element>, out: seq<byte>): BitString
    requires Codes(lit, dist) && ElementsOk(lit, dist, es, out)
    decreases |es|
  {
    if es == [] then []
    else ElementText(lit, dist, es[0]) + ElementsText(lit, dist, es[1..], Perform(lit, dist, es[0], out))
  }

  ghost function TablesBitsOf(t: Tables): BitString
    requires TablesOk(t)
  {
    match t
    case FixedTables => []
    case DynamicTables(hlit, hdist, n, bw, codes) => TablesText(hlit, hdist, n, bw, codes)
  }

  /** A block that may stand at bit `pos` once `out` has been produced. */
  ghost predicate BlockOk(b: Block, pos: nat, out: seq<byte>) {
    match b
    case StoredBlock(_, pad, data) => |pad| == PadTo8(pos + 3) && |data| <= 0xFFFF
    case CodedBlock(_, t, es) => TablesOk(t) && ElementsOk(LiteralLengths(t), DistanceLengths(t), es, out)
  }

  /** The bits of a block: the final flag, its kind in two bits, and its contents. */
  ghost function BlockText(b: Block, pos: nat, out: seq<byte>): BitString {
    if !BlockOk(b, pos, out) then []
    else
      match b
      case StoredBlock(isFinal, pad, data) =>
        [isFinal, false, false] + pad + (ToBits(|data|, 16) + ToBits(0xFFFF - |data|, 16) + BytesToBits(data))
      case CodedBlock(isFinal, t, es) =>
        [isFinal, t.FixedTables?, t.DynamicTables?] + TablesBitsOf(t)
        + (ElementsText(LiteralLengths(t), DistanceLengths(t), es, out) + Word(LiteralLengths(t), END_OF_BLOCK))
  }

  /** The output after a block. */
  ghost function BlockOutput(b: Block, pos: nat, out: seq<byte>): seq<byte> {
    if !BlockOk(b, pos, out) then out
    else
      match b
      case StoredBlock(_, _, data) => out + data
      case CodedBlock(_, t, es) => PerformAll(LiteralLengths(t), DistanceLengths(t), es, out)
  }

  /** Blocks in a row, exactly the last of them final. */
  ghost predicate StreamOk(bs: seq<Block>, pos: nat, out: seq<byte>)
    decreases |bs|
  {
    bs != [] && BlockOk(bs[0], pos, out) && (bs[0].isFinal <==> |bs| == 1)
    && (|bs| > 1 ==> StreamOk(bs[1..], pos + |BlockText(bs[0], pos, out)|, BlockOutput(bs[0], pos, out)))
  }

  ghost function StreamText(bs: seq<Block>, pos: nat, out: seq<byte>): BitString
    decreases |bs|
  {
    if bs == [] then []
    else
      var first := BlockText(bs[0], pos, out);
      first + StreamText(bs[1..], pos + |first|, BlockOutput(bs[0], pos, out))
  }

  ghost function StreamOutput(bs: seq<Block>, pos: nat, out: seq<byte>): seq<byte>
    decreases |bs|
  {
    if bs == [] then out
    else StreamOutput(bs[1..], pos + |BlockText(bs[0], pos, out)|, BlockOutput(bs[0], pos, out))
  }

  // ----- Well-formed streams are accepted -----

  /** The machine is in the symbol loop with the codes of these lengths. */
  ghost predicate Looping(st: I.State, isFinal: bool, lit: seq<nat>, dist: seq<nat>) {
    LoopWith(st, isFinal, lit, dist) && I.ValidState(st) && Acceptable(lit) && Acceptable(dist)
  }

  lemma {:induction false} LoopingPeeks(st: I.State, isFinal: bool, lit: seq<nat>, dist: seq<nat>)
    requires Looping(st, isFinal, lit, dist)
    ensures st.SymbolLoop? && st.isFinal == isFinal && st.distance.peek <= st.literal.peek && I.ValidState(st)
    ensures st.literal.entries == SortedEntries(lit) && st.distance.entries == SortedEntries(dist)
    ensures |lit| > END_OF_BLOCK && lit[END_OF_BLOCK] > 0 ==> st.literal.peek == lit[END_OF_BLOCK]
    ensures Acceptable(lit) && Acceptable(dist)
  {}

  lemma {:induction false} ByteLeads(st: I.State, isFinal: bool, lit: seq<nat>, dist: seq<nat>, s: BitString, pos: nat,
      out: seq<byte>, b: byte)
    requires Looping(st, isFinal, lit, dist) && Codes(lit, dist) && lit[b] > 0
    requires At(s, pos, Word(lit, b)) && pos + |Word(lit, b)| + lit[END_OF_BLOCK] <= |s|
    ensures Leads(s, I.Config(st, out, pos), I.Config(st, out + [b], pos + |Word(lit, b)|))
  {
    hide Acceptable, Looping, At, Decode, Word, SortedEntries, I.Run, I.LoopCodes, I.Step, Leads, I.ValidState;
    LoopingPeeks(st, isFinal, lit, dist);
    DecodeInvertsEncode(lit, st.literal, b, s, pos);
    I.SymbolCase(s, I.Config(st, out, pos));
    StepLeads(s, I.Config(st, out, pos), I.Config(st, out + [b], pos + |Word(lit, b)|));
  }

  lemma {:induction false} EndOfBlockLeads(st: I.State, isFinal: bool, lit: seq<nat>, dist: seq<nat>, s: BitString,
      pos: nat, out: seq<byte>)
    requires Looping(st, isFinal, lit, dist) && Codes(lit, dist) && At(s, pos, Word(lit, END_OF_BLOCK))
    ensures Leads(s, I.Config(st, out, pos), I.Config(After(isFinal), out, pos + |Word(lit, END_OF_BLOCK)|))
  {
    hide Acceptable, Looping, Decode, Word, SortedEntries, I.Run, I.LoopCodes, I.Step, Leads, I.ValidState;
    LoopingPeeks(st, isFinal, lit, dist);
    DecodeInvertsEncode(lit, st.literal, END_OF_BLOCK, s, pos);
    I.SymbolCase(s, I.Config(st, out, pos));
    StepLeads(s, I.Config(st, out, pos), I.Config(After(isFinal), out, pos + |Word(lit, END_OF_BLOCK)|));
  }

  /** The distance half of a copy is read. */
  lemma {:induction false} CopyDistanceRead(dist: seq<nat>, code: Code, d: EncodedSymbol, length: nat, s: BitString,
      pos: nat, more: nat)
    requires Acceptable(dist) && code.entries == SortedEntries(dist) && code.peek <= more
    requires d.code < 30 && SymbolOk(dist, d, RowOfDistance(d.code)) && SymbolAt(dist, d, s, pos, more)
    ensures I.ReadDistance(code, length, s, pos) == I.Pointer(length, CopyDistance(d), pos + |SymbolBits(dist, d)|)
  {
    hide Acceptable, Decode, I.Field, SortedEntries, SymbolAt, SymbolBits;
    SymbolRead(dist, code, d, s, pos, more);
  }

  /** The two symbols of a copy stand at `pos`, with the look-ahead behind them. */
  lemma {:induction false} CopyReads(st: I.State, isFinal: bool, lit: seq<nat>, dist: seq<nat>, s: BitString, pos: nat,
      out: seq<byte>, l: EncodedSymbol, d: EncodedSymbol)
    requires Looping(st, isFinal, lit, dist) && Codes(lit, dist) && pos <= |s|
    requires ElementOk(lit, dist, Copy(l, d), |out|)
    requires At(s, pos, SymbolBits(lit, l) + SymbolBits(dist, d))
    requires pos + |SymbolBits(lit, l) + SymbolBits(dist, d)| + lit[END_OF_BLOCK] <= |s|
    ensures st.SymbolLoop?
    ensures I.StepSymbol(s, st, out, pos)
            == I.Next(I.Config(st, CopyBytewise(out, CopyDistance(d), CopyLength(l)),
                               pos + |SymbolBits(lit, l) + SymbolBits(dist, d)|))
  {
    hide Acceptable, Looping, At, Decode, Word, SortedEntries, I.LoopCodes, I.Field, CopyBytewise, I.ReadDistance,
         I.StepSymbol, SymbolBits, I.ValidState, WidthsOk, Pow2, CopyDistance, RowOfDistance;
    LoopingPeeks(st, isFinal, lit, dist);
    AtSplit(s, pos, SymbolBits(lit, l), SymbolBits(dist, d));
    SymbolRead(lit, st.literal, l, s, pos, lit[END_OF_BLOCK]);
    CopyDistanceRead(dist, st.distance, d, CopyLength(l), s, pos + |SymbolBits(lit, l)|, lit[END_OF_BLOCK]);
    PointerStep(st, s, pos, out, l, lit[l.code], CopyLength(l), CopyDistance(d),
                pos + |SymbolBits(lit, l) + SymbolBits(dist, d)|);
  }

  lemma {:induction false} ElementLeads(st: I.State, isFinal: bool, lit: seq<nat>, dist: seq<nat>, s: BitString,
      pos: nat, out: seq<byte>, e: Element)
    requires Looping(st, isFinal, lit, dist) && Codes(lit, dist) && ElementOk(lit, dist, e, |out|)
    requires At(s, pos, ElementText(lit, dist, e))
    requires pos + |ElementText(lit, dist, e)| + lit[END_OF_BLOCK] <= |s|
    ensures Leads(s, I.Config(st, out, pos),
                  I.Config(st, Perform(lit, dist, e, out), pos + |ElementText(lit, dist, e)|))
  {
    hide Looping, At, I.Run, I.Step, I.StepSymbol, I.ValidState, Leads, SymbolBits, Word, CopyBytewise, Acceptable;
    match e {
      case Byte(b) => ByteLeads(st, isFinal, lit, dist, s, pos, out, b);
      case Copy(l, d) =>
        LoopingPeeks(st, isFinal, lit, dist);
        CopyReads(st, isFinal, lit, dist, s, pos, out, l, d);
        I.SymbolCase(s, I.Config(st, out, pos));
        StepLeads(s, I.Config(st, out, pos),
                  I.Config(st, Perform(lit, dist, e, out), pos + |ElementText(lit, dist, e)|));
    }
  }

  /** Elements, with the end-of-block look-ahead behind them. */
  lemma {:induction false} ElementsLead(st: I.State, isFinal: bool, lit: seq<nat>, dist: seq<nat>, s: BitString,
      pos: nat, out: seq<byte>, es: seq<Element>)
    requires Looping(st, isFinal, lit, dist) && Codes(lit, dist) && ElementsOk(lit, dist, es, out)
    requires At(s, pos, ElementsText(lit, dist, es, out))
    requires pos + |ElementsText(lit, dist, es, out)| + lit[END_OF_BLOCK] <= |s|
    ensures Leads(s, I.Config(st, out, pos),
                  I.Config(st, PerformAll(lit, dist, es, out), pos + |ElementsText(lit, dist, es, out)|))
    decreases |es|
  {
    hide Looping, Codes, At, I.Run, I.ValidState, Leads, ElementText, ElementOk, Perform;
    CodesWidths(lit, dist);
    if es == [] {
      LoopingPeeks(st, isFinal, lit, dist);
      AtBound(s, pos, []);
      StaysPut(s, I.Config(st, out, pos));
    } else {
      var e, rest := es[0], es[1..];
      var text, next := ElementText(lit, dist, e), Perform(lit, dist, e, out);
      AtSplit(s, pos, text, ElementsText(lit, dist, rest, next));
      ElementLeads(st, isFinal, lit, dist, s, pos, out, e);
      ElementsLead(st, isFinal, lit, dist, s, pos + |text|, next, rest);
      LeadsOn(s, I.Config(st, out, pos), I.Config(st, next, pos + |text|),
              I.Config(st, PerformAll(lit, dist, es, out), pos + |ElementsText(lit, dist, es, out)|));
    }
  }

  lemma {:induction false} CodesWidths(lit: seq<nat>, dist: seq<nat>)
    requires Codes(lit, dist)
    ensures WidthsOk(SortedEntries(lit)) && WidthsOk(SortedEntries(dist))
  {}

  lemma {:induction false} StaysPut(s: BitString, c: I.Config)
    requires I.ValidConfig(s, c)
    ensures Leads(s, c, c)
  {
    hide I.Run, I.ValidState;
  }

  lemma {:induction false} HeaderIs(isFinal: bool)
    ensures HeaderBits(isFinal, 0) == [isFinal, false, false]
    ensures HeaderBits(isFinal, 1) == [isFinal, true, false]
    ensures HeaderBits(isFinal, 2) == [isFinal, false, true]
  {
    assert ToBits(0, 2) == [false, false] && ToBits(1, 2) == [true, false] && ToBits(2, 2) == [false, true];
  }

  lemma {:induction false} StoredForward(s: BitString, pos: nat, out: seq<byte>, isFinal: bool, pad: BitString,
      data: seq<byte>)
    requires |pad| == PadTo8(pos + 3) && |data| <= 0xFFFF
    requires At(s, pos, [isFinal, false, false] + pad
                        + (ToBits(|data|, 16) + ToBits(0xFFFF - |data|, 16) + BytesToBits(data)))
    ensures Leads(s, I.Config(I.BlockHeader, out, pos),
                  I.Config(After(isFinal), out + data, pos + 3 + |pad| + 32 + 8 * |data|))
  {
    hide I.Run, I.Field, I.Step, I.ValidState, ToBits, BytesToBits, At, Leads, HeaderBits;
    var body := ToBits(|data|, 16) + ToBits(0xFFFF - |data|, 16) + BytesToBits(data);
    AtThree(s, pos, [isFinal, false, false], pad, body);
    HeaderIs(isFinal);
    HeaderAt(s, pos, isFinal, 0);
    var p := pos + 3;
    var start := p + PadTo8(p);
    AtThree(s, start, ToBits(|data|, 16), ToBits(0xFFFF - |data|, 16), BytesToBits(data));
    Pow2Values();
    FieldAt(s, start, |data|, 16);
    FieldAt(s, start + 16, 0xFFFF - |data|, 16);
    StoredStart(s, pos, out, isFinal);
    StoredLengths(s, p, out, isFinal, |data|);
    BodyLeads(s, start + 32, out, data, isFinal);
    LeadsOn(s, I.Config(I.BlockHeader, out, pos), I.Config(I.StoredAlignAndLen(isFinal), out, p),
            I.Config(I.StoredBody(|data|, isFinal), out, start + 32));
    LeadsOn(s, I.Config(I.BlockHeader, out, pos), I.Config(I.StoredBody(|data|, isFinal), out, start + 32),
            I.Config(After(isFinal), out + data, start + 32 + 8 * |data|));
  }

  lemma {:induction false} FixedForward(s: BitString, pos: nat, out: seq<byte>, isFinal: bool)
    returns (st: I.State)
    requires At(s, pos, [isFinal, true, false])
    ensures Looping(st, isFinal, FixedLiteralLengths(), FixedDistanceLengths())
    ensures Leads(s, I.Config(I.BlockHeader, out, pos), I.Config(st, out, pos + 3))
  {
    hide I.Run, I.ValidState, At, Leads, HeaderBits, LoopWith, InLoop, Acceptable, FixedLoop, FixedLiteralLengths,
         FixedDistanceLengths, Lengths;
    HeaderIs(isFinal);
    FixedStart(s, pos, out, isFinal);
    st := FixedLoop(isFinal);
    LoopWithIs(st, FixedLiteralLengths(), FixedDistanceLengths());
    InLoopPeeks(st, FixedLiteralLengths(), FixedDistanceLengths());
    LengthsParts(FixedLiteralLengths(), FixedDistanceLengths());
    FixedFinal(isFinal);
  }

  lemma {:induction false} DynamicForward(s: BitString, pos: nat, out: seq<byte>, isFinal: bool, t: Tables)
    returns (st: I.State)
    requires t.DynamicTables? && TablesOk(t) && At(s, pos, [isFinal, false, true] + TablesBitsOf(t))
    requires pos + 3 + |TablesBitsOf(t)| < |s|
    ensures Looping(st, isFinal, LiteralLengths(t), DistanceLengths(t))
    ensures Leads(s, I.Config(I.BlockHeader, out, pos), I.Config(st, out, pos + 3 + |TablesBitsOf(t)|))
  {
    hide I.Run, I.ValidState, At, Leads, HeaderBits, LoopWith, Acceptable, TablesText, Unpack, Describing,
         LiteralLengths, DistanceLengths, I.MakesACode, WidthsCoded;
    HeaderIs(isFinal);
    BothMakeCodes(t);
    DescribingLengths(t);
    DescribingParts(t);
    HeaderVerdict(s, pos, out, isFinal, t.hlit, t.hdist, t.n, t.bw, t.codes);
    var end := pos + 3 + |TablesBitsOf(t)|;
    st :| LoopWith(st, isFinal, LiteralLengths(t), DistanceLengths(t))
          && Leads(s, I.Config(I.BlockHeader, out, pos), I.Config(st, out, end));
    LeadsWithin(s, I.Config(I.BlockHeader, out, pos), I.Config(st, out, end));
  }

  lemma {:induction false} BothMakeCodes(t: Tables)
    requires TablesOk(t)
    ensures I.MakesACode(LiteralLengths(t)) && I.MakesACode(DistanceLengths(t))
  {
    hide LiteralLengths, DistanceLengths, Acceptable, Kraft, Describing;
    AcceptableIff(LiteralLengths(t));
    AcceptableIff(DistanceLengths(t));
  }

  /** Tables in place bring the machine to the symbol loop with their codes. */
  lemma {:induction false} TablesForward(s: BitString, pos: nat, out: seq<byte>, isFinal: bool, t: Tables)
    returns (st: I.State)
    requires TablesOk(t) && At(s, pos, [isFinal, t.FixedTables?, t.DynamicTables?] + TablesBitsOf(t))
    requires pos + 3 + |TablesBitsOf(t)| < |s|
    ensures Looping(st, isFinal, LiteralLengths(t), DistanceLengths(t))
    ensures Leads(s, I.Config(I.BlockHeader, out, pos), I.Config(st, out, pos + 3 + |TablesBitsOf(t)|))
  {
    hide I.Run, At, Leads, Looping, TablesOk, TablesText, FixedLiteralLengths, FixedDistanceLengths;
    match t {
      case FixedTables =>
        assert [isFinal, true, false] + [] == [isFinal, true, false];
        st := FixedForward(s, pos, out, isFinal);
      case DynamicTables(_, _, _, _, _) => st := DynamicForward(s, pos, out, isFinal, t);
    }
  }

  lemma {:induction false} DescribingLengths(t: Tables)
    requires t.DynamicTables? && Describing(t.hlit, t.hdist, t.n, t.bw, t.codes)
    ensures LiteralLengths(t) == Unpack(t.codes, [])[..t.hlit] && DistanceLengths(t) == Unpack(t.codes, [])[t.hlit..]
    ensures |LiteralLengths(t)| == t.hlit >= 257 && |DistanceLengths(t)| == t.hdist
  {
    hide Unpack, WidthsCoded, OrderSlot;
  }

  lemma {:induction false} CodesOf(t: Tables)
    requires TablesOk(t)
    ensures Codes(LiteralLengths(t), DistanceLengths(t))
    ensures |LiteralLengths(t)| > END_OF_BLOCK && WidthsOk(SortedEntries(LiteralLengths(t)))
    ensures |Word(LiteralLengths(t), END_OF_BLOCK)| == LiteralLengths(t)[END_OF_BLOCK] > 0
  {
    hide Describing, Acceptable, LiteralLengths, DistanceLengths;
    AcceptableWidths(LiteralLengths(t));
  }

  lemma {:induction false} AcceptableWidths(lengths: seq<nat>)
    requires Acceptable(lengths)
    ensures WidthsOk(SortedEntries(lengths))
  {}

  lemma {:induction false} CodedForward(s: BitString, pos: nat, out: seq<byte>, isFinal: bool, t: Tables,
      es: seq<Element>)
    requires BlockOk(CodedBlock(isFinal, t, es), pos, out)
    requires At(s, pos, BlockText(CodedBlock(isFinal, t, es), pos, out))
    ensures var b := CodedBlock(isFinal, t, es);
            Leads(s, I.Config(I.BlockHeader, out, pos),
                  I.Config(After(isFinal), BlockOutput(b, pos, out), pos + |BlockText(b, pos, out)|))
  {
    hide I.Run, I.ValidState, At, Leads, Looping, TablesOk, ElementsOk, ElementsText, PerformAll, TablesBitsOf,
         LiteralLengths, DistanceLengths, Codes, Word;
    var lit, dist := LiteralLengths(t), DistanceLengths(t);
    CodesOf(t);
    var head := [isFinal, t.FixedTables?, t.DynamicTables?] + TablesBitsOf(t);
    var text, end := ElementsText(lit, dist, es, out), Word(lit, END_OF_BLOCK);
    AtSplit(s, pos, head, text + end);
    AtSplit(s, pos + |head|, text, end);
    AtBound(s, pos + |head| + |text|, end);
    var st := TablesForward(s, pos, out, isFinal, t);
    var made := PerformAll(lit, dist, es, out);
    ElementsLead(st, isFinal, lit, dist, s, pos + |head|, out, es);
    EndOfBlockLeads(st, isFinal, lit, dist, s, pos + |head| + |text|, made);
    LeadsOn(s, I.Config(I.BlockHeader, out, pos), I.Config(st, out, pos + |head|),
            I.Config(st, made, pos + |head| + |text|));
    LeadsOn(s, I.Config(I.BlockHeader, out, pos), I.Config(st, made, pos + |head| + |text|),
            I.Config(After(isFinal), made, pos + |head| + |text| + |end|));
  }

  /** A block in place is read whole. */
  lemma {:induction false} BlockForward(s: BitString, pos: nat, out: seq<byte>, b: Block)
    requires BlockOk(b, pos, out) && At(s, pos, BlockText(b, pos, out))
    ensures Leads(s, I.Config(I.BlockHeader, out, pos),
                  I.Config(After(b.isFinal), BlockOutput(b, pos, out), pos + |BlockText(b, pos, out)|))
  {
    hide I.Run, I.ValidState, At, Leads, TablesOk, ElementsOk, ElementsText, PerformAll, TablesBitsOf, ToBits,
         BytesToBits;
    match b {
      case StoredBlock(isFinal, pad, data) => StoredForward(s, pos, out, isFinal, pad, data);
      case CodedBlock(isFinal, t, es) => CodedForward(s, pos, out, isFinal, t, es);
    }
  }

  /** A well-formed stream is accepted, with the output it stands for, and ends where it ends. */
  lemma {:induction false} StreamForward(s: BitString, pos: nat, out: seq<byte>, bs: seq<Block>)
    requires StreamOk(bs, pos, out) && At(s, pos, StreamText(bs, pos, out))
    ensures I.ValidConfig(s, I.Config(I.BlockHeader, out, pos))
    ensures I.Run(s, I.Config(I.BlockHeader, out, pos))
            == I.Complete(I.Config(I.Finished, StreamOutput(bs, pos, out), pos + |StreamText(bs, pos, out)|))
    decreases |bs|
  {
    hide I.Run, I.ValidState, At, BlockOk, BlockText, BlockOutput;
    var b, first, next := bs[0], BlockText(bs[0], pos, out), BlockOutput(bs[0], pos, out);
    AtSplit(s, pos, first, StreamText(bs[1..], pos + |first|, next));
    BlockForward(s, pos, out, b);
    if b.isFinal {
      assert bs[1..] == [];
      I.RunCompletes(s, I.Config(I.Finished, next, pos + |first|));
    } else {
      StreamForward(s, pos + |first|, next, bs[1..]);
    }
  }

  // ----- What is accepted is a well-formed stream -----

  /** The run from here completes. */
  ghost predicate Completes(s: BitString, c: I.Config) {
    I.ValidConfig(s, c) && I.Run(s, c).Complete?
  }

  /** A run that completes takes a step, and completes from there. */
  lemma {:induction false} CompletesOn(s: BitString, c: I.Config)
    requires Completes(s, c) && c.state != I.Finished
    ensures I.ValidConfig(s, c) && I.Step(s, c).Next? && Completes(s, I.Step(s, c).config)
    ensures c.pos < I.Step(s, c).config.pos
            || (c.pos == I.Step(s, c).config.pos && I.Rank(I.Step(s, c).config.state) < I.Rank(c.state))
  {
    hide I.Step, I.ValidState;
    I.StepAdvances(s, c);
    if I.Step(s, c).Finish? {
      I.OnlyFinishedFinishes(s, c);
    }
  }

  lemma {:induction false} FieldBack(s: BitString, pos: nat, n: nat)
    requires pos + n <= |s|
    ensures At(s, pos, ToBits(I.Field(s, pos, n), n)) && I.Field(s, pos, n) < Pow2(n)
  {
    ToFromBits(s[pos..pos + n]);
  }

  /** A symbol that is decoded has a codeword, and that codeword stands there. */
  lemma {:induction false} WordBack(lengths: seq<nat>, code: Code, s: BitString, pos: nat)
    requires Acceptable(lengths) && code.entries == SortedEntries(lengths) && pos <= |s| && Decode(code, s, pos).Symbol?
    ensures var d := Decode(code, s, pos);
            d.symbol < |lengths| && lengths[d.symbol] == d.width > 0 && At(s, pos, Word(lengths, d.symbol))
  {
    hide Decode, At, CodeBits, Acceptable, SortedEntries;
    AcceptableWidths(lengths);
    EntriesShape(lengths);
    var i := DecodeSound(code, s, pos);
    var es, symbol := code.entries, code.entries[i].symbol;
    var j := IndexOf(lengths, symbol);
    if i < j {
      SymbolsDistinct(lengths, es, j);
    } else if j < i {
      SymbolsDistinct(lengths, es, i);
    }
  }

  lemma {:induction false} BodyBack(s: BitString, pos: nat, out: seq<byte>, n: nat, isFinal: bool)
    returns (data: seq<byte>)
    requires Completes(s, I.Config(I.StoredBody(n, isFinal), out, pos))
    ensures |data| == n && At(s, pos, BytesToBits(data))
    decreases n
  {
    hide Completes, I.Step, I.Run, ToBits, At;
    var c := I.Config(I.StoredBody(n, isFinal), out, pos);
    CompletesOn(s, c);
    I.StoredBodyCase(s, c);
    data := [];
    if n > 0 {
      var b := I.ByteOf(s, pos);
      FieldBack(s, pos, 8);
      var rest := BodyBack(s, pos + 8, out + [b], n - 1, isFinal);
      data := [b] + rest;
      assert data[1..] == rest;
      AtSplit(s, pos, ToBits(b, 8), BytesToBits(rest));
    } else {
      AtNothing(s, pos);
    }
  }

  lemma {:induction false} AtNothing(s: BitString, pos: nat)
    requires pos <= |s|
    ensures At(s, pos, [])
  {}

  lemma {:induction false} StoredBack(s: BitString, pos: nat, out: seq<byte>, isFinal: bool) returns (b: Block)
    requires Completes(s, I.Config(I.StoredAlignAndLen(isFinal), out, pos + 3))
    requires At(s, pos, [isFinal, false, false])
    ensures b.StoredBlock? && b.isFinal == isFinal && BlockOk(b, pos, out) && At(s, pos, BlockText(b, pos, out))
  {
    hide Completes, I.Step, I.Run, I.Field, ToBits, BytesToBits, At;
    var c := I.Config(I.StoredAlignAndLen(isFinal), out, pos + 3);
    CompletesOn(s, c);
    I.StoredHeaderCase(s, c);
    var start := pos + 3 + PadTo8(pos + 3);
    var len := I.Field(s, start, 16);
    FieldBack(s, start, 16);
    FieldBack(s, start + 16, 16);
    Pow2Values();
    var data := BodyBack(s, start + 32, out, len, isFinal);
    var pad := s[pos + 3..start];
    AtSlice(s, pos + 3, start);
    b := StoredBlock(isFinal, pad, data);
    JoinThree(s, start, ToBits(len, 16), ToBits(0xFFFF - len, 16), BytesToBits(data));
    JoinThree(s, pos, [isFinal, false, false], pad, ToBits(len, 16) + ToBits(0xFFFF - len, 16) + BytesToBits(data));
  }

  lemma {:induction false} AtSlice(s: BitString, a: nat, b: nat)
    requires a <= b <= |s|
    ensures At(s, a, s[a..b])
  {}

  lemma {:induction false} JoinThree(s: BitString, pos: nat, a: BitString, b: BitString, c: BitString)
    requires At(s, pos, a) && At(s, pos + |a|, b) && At(s, pos + |a| + |b|, c)
    ensures At(s, pos, a + b + c)
  {
    hide At;
    AtSplit(s, pos, a, b);
    AtSplit(s, pos, a + b, c);
  }

  // ----- Elements -----

  lemma {:induction false} LengthBack(lit: seq<nat>, code: Code, s: BitString, pos: nat) returns (l: EncodedSymbol)
    requires Acceptable(lit) && code.entries == SortedEntries(lit) && pos <= |s| && Decode(code, s, pos).Symbol?
    requires var d := Decode(code, s, pos); 257 <= d.symbol <= 285 && pos + d.width + RowOfLength(d.symbol).1 <= |s|
    ensures var d := Decode(code, s, pos);
            l.code == d.symbol && SymbolOk(lit, l, RowOfLength(l.code)) && WidthsOk(SortedEntries(lit))
            && I.Field(s, pos + d.width, l.extraBits) == l.extra && |SymbolBits(lit, l)| == d.width + l.extraBits
            && At(s, pos, SymbolBits(lit, l))
  {
    hide Decode, At, Word, I.Field, ToBits, SortedEntries, Acceptable;
    AcceptableWidths(lit);
    WordBack(lit, code, s, pos);
    var symbol := Decode(code, s, pos).symbol;
    var row, q := RowOfLength(symbol), pos + Decode(code, s, pos).width;
    FieldBack(s, q, row.1);
    l := EncodedSymbol(symbol, row.1, I.Field(s, q, row.1));
    AtSplit(s, pos, Word(lit, symbol), ToBits(l.extra, l.extraBits));
  }

  /** What `StepSymbol` does with a length symbol. */
  lemma {:induction false} CopySteps(st: I.State, s: BitString, pos: nat, out: seq<byte>, p: nat, row: (nat, nat))
    requires pos <= p <= |s| && st.SymbolLoop? && I.StepSymbol(s, st, out, pos).Next?
    requires var d := Decode(st.literal, s, pos);
             d.Symbol? && 257 <= d.symbol <= 285 && p == pos + d.width && row == RowOfLength(d.symbol)
    ensures p + row.1 <= |s|
    ensures CopyStep(I.ReadDistance(st.distance, row.0 + I.Field(s, p, row.1), s, p + row.1), st, out,
                     I.StepSymbol(s, st, out, pos).config)
  {
    hide Decode, CopyBytewise, I.Field, I.ReadDistance;
  }

  ghost predicate CopyStep(r: I.Pointer, st: I.State, out: seq<byte>, next: I.Config) {
    r.Pointer? && 1 <= r.distance <= |out| && next == I.Config(st, CopyBytewise(out, r.distance, r.length), r.end)
  }

  /** A copy the symbol loop makes is one that stands there. */
  lemma {:induction false} CopyBack(st: I.State, isFinal: bool, lit: seq<nat>, dist: seq<nat>, s: BitString, pos: nat,
      out: seq<byte>)
    returns (l: EncodedSymbol, d: EncodedSymbol)
    requires Looping(st, isFinal, lit, dist) && pos <= |s| && st.SymbolLoop? && I.StepSymbol(s, st, out, pos).Next?
    requires Decode(st.literal, s, pos).Symbol? && 257 <= Decode(st.literal, s, pos).symbol <= 285
    ensures ElementOk(lit, dist, Copy(l, d), |out|)
    ensures WidthsOk(SortedEntries(lit)) && WidthsOk(SortedEntries(dist))
    ensures At(s, pos, SymbolBits(lit, l) + SymbolBits(dist, d))
    ensures I.StepSymbol(s, st, out, pos).config
            == I.Config(st, CopyBytewise(out, CopyDistance(d), CopyLength(l)),
                        pos + |SymbolBits(lit, l) + SymbolBits(dist, d)|)
  {
    hide Looping, Decode, At, CopyBytewise, I.Field, SymbolBits, SortedEntries, Acceptable, I.ValidState, I.StepSymbol,
         I.ReadDistance, CopyDistance, WidthsOk, Pow2, RowOfLength, RowOfDistance;
    LoopingPeeks(st, isFinal, lit, dist);
    var first := Decode(st.literal, s, pos);
    CopySteps(st, s, pos, out, pos + first.width, RowOfLength(first.symbol));
    l := LengthBack(lit, st.literal, s, pos);
    var q := pos + |SymbolBits(lit, l)|;
    d := DistanceBack(dist, st.distance, CopyLength(l), s, q);
    AtSplit(s, pos, SymbolBits(lit, l), SymbolBits(dist, d));
  }

  lemma {:induction false} DistanceBack(dist: seq<nat>, code: Code, length: nat, s: BitString, pos: nat)
    returns (d: EncodedSymbol)
    requires Acceptable(dist) && code.entries == SortedEntries(dist) && pos <= |s|
    requires I.ReadDistance(code, length, s, pos).Pointer?
    ensures d.code < 30 && SymbolOk(dist, d, RowOfDistance(d.code)) && WidthsOk(SortedEntries(dist))
    ensures At(s, pos, SymbolBits(dist, d))
    ensures I.ReadDistance(code, length, s, pos) == I.Pointer(length, CopyDistance(d), pos + |SymbolBits(dist, d)|)
  {
    hide Decode, At, Word, I.Field, ToBits, SortedEntries, Acceptable;
    AcceptableWidths(dist);
    WordBack(dist, code, s, pos);
    var symbol := Decode(code, s, pos).symbol;
    var row, q := RowOfDistance(symbol), pos + Decode(code, s, pos).width;
    FieldBack(s, q, row.1);
    d := EncodedSymbol(symbol, row.1, I.Field(s, q, row.1));
    AtSplit(s, pos, Word(dist, symbol), ToBits(d.extra, d.extraBits));
  }

  /** An element that may come next stands at `pos`, and is what the step performs. */
  ghost predicate Turns(lit: seq<nat>, dist: seq<nat>, s: BitString, pos: nat, out: seq<byte>, e: Element,
                        st: I.State, next: I.Config)
  {
    WidthsOk(SortedEntries(lit)) && WidthsOk(SortedEntries(dist)) && ElementOk(lit, dist, e, |out|)
    && At(s, pos, ElementText(lit, dist, e)) && |ElementText(lit, dist, e)| > 0
    && next == I.Config(st, Perform(lit, dist, e, out), pos + |ElementText(lit, dist, e)|)
  }

  lemma {:induction false} ByteTurns(st: I.State, isFinal: bool, lit: seq<nat>, dist: seq<nat>, s: BitString, pos: nat,
      out: seq<byte>)
    returns (e: Element)
    requires Looping(st, isFinal, lit, dist) && pos <= |s| && st.SymbolLoop? && I.StepSymbol(s, st, out, pos).Next?
    requires Decode(st.literal, s, pos).Symbol? && Decode(st.literal, s, pos).symbol <= 255
    ensures Turns(lit, dist, s, pos, out, e, st, I.StepSymbol(s, st, out, pos).config)
  {
    hide Looping, Acceptable, Decode, At, I.ValidState, I.StepSymbol, Word, SortedEntries;
    LoopingPeeks(st, isFinal, lit, dist);
    AcceptableWidths(lit);
    AcceptableWidths(dist);
    LoopSteps(st, s, pos, out);
    WordBack(lit, st.literal, s, pos);
    e := Byte(Decode(st.literal, s, pos).symbol);
  }

  lemma {:induction false} CopyTurns(st: I.State, isFinal: bool, lit: seq<nat>, dist: seq<nat>, s: BitString, pos: nat,
      out: seq<byte>)
    returns (e: Element)
    requires Looping(st, isFinal, lit, dist) && pos <= |s| && st.SymbolLoop? && I.StepSymbol(s, st, out, pos).Next?
    requires Decode(st.literal, s, pos).Symbol? && 257 <= Decode(st.literal, s, pos).symbol <= 285
    ensures Turns(lit, dist, s, pos, out, e, st, I.StepSymbol(s, st, out, pos).config)
  {
    hide Looping, Acceptable, Decode, At, I.ValidState, I.StepSymbol, SymbolBits, CopyBytewise, SortedEntries,
         WidthsOk, CopyLength, CopyDistance, RowOfLength, RowOfDistance;
    var length, distance := CopyBack(st, isFinal, lit, dist, s, pos, out);
    e := Copy(length, distance);
    SymbolBitsNotEmpty(lit, length);
  }

  lemma {:induction false} SymbolBitsNotEmpty(lengths: seq<nat>, e: EncodedSymbol)
    requires WidthsOk(SortedEntries(lengths)) && e.code < |lengths| && lengths[e.code] > 0
    ensures |SymbolBits(lengths, e)| > 0
  {
    hide SortedEntries, Word, ToBits;
  }

  /** One turn of the symbol loop on the way to completion: an element, or the end of the block. */
  lemma {:induction false} OneBack(st: I.State, isFinal: bool, lit: seq<nat>, dist: seq<nat>, s: BitString, pos: nat,
      out: seq<byte>)
    returns (r: Option<Element>)
    requires Looping(st, isFinal, lit, dist) && Completes(s, I.Config(st, out, pos))
    ensures WidthsOk(SortedEntries(lit)) && WidthsOk(SortedEntries(dist))
    ensures r.None? ==> |lit| > END_OF_BLOCK && lit[END_OF_BLOCK] > 0 && At(s, pos, Word(lit, END_OF_BLOCK))
    ensures r.Some? ==>
              Turns(lit, dist, s, pos, out, r.value, st, I.Step(s, I.Config(st, out, pos)).config)
              && Completes(s, I.Step(s, I.Config(st, out, pos)).config)
  {
    hide Looping, Completes, Acceptable, Decode, At, I.Step, I.Run, I.ValidState, I.StepSymbol, Word, SortedEntries,
         Turns;
    LoopingPeeks(st, isFinal, lit, dist);
    AcceptableWidths(lit);
    AcceptableWidths(dist);
    var c := I.Config(st, out, pos);
    CompletesOn(s, c);
    I.SymbolCase(s, c);
    LoopSteps(st, s, pos, out);
    var d := Decode(st.literal, s, pos);
    if d.symbol == END_OF_BLOCK {
      WordBack(lit, st.literal, s, pos);
      r := None;
    } else if d.symbol <= 255 {
      var e := ByteTurns(st, isFinal, lit, dist, s, pos, out);
      r := Some(e);
    } else {
      var e := CopyTurns(st, isFinal, lit, dist, s, pos, out);
      r := Some(e);
    }
  }

  /** What is read in the symbol loop until the block ends. */
  lemma {:induction false} ElementsBack(st: I.State, isFinal: bool, lit: seq<nat>, dist: seq<nat>, s: BitString,
      pos: nat, out: seq<byte>)
    returns (es: seq<Element>)
    requires Looping(st, isFinal, lit, dist) && Completes(s, I.Config(st, out, pos))
    ensures Codes(lit, dist) && ElementsOk(lit, dist, es, out) && WidthsOk(SortedEntries(lit))
    ensures At(s, pos, ElementsText(lit, dist, es, out) + Word(lit, END_OF_BLOCK))
    decreases |s| - pos
  {
    hide Looping, Completes, Acceptable, At, Word, SortedEntries, ElementOk, Perform, ElementText, ElementsOk,
         ElementsText, I.Step;
    LoopingPeeks(st, isFinal, lit, dist);
    CompletesWithin(s, I.Config(st, out, pos));
    var r := OneBack(st, isFinal, lit, dist, s, pos, out);
    if r.None? {
      es := [];
      NoElements(lit, dist, out);
    } else {
      var next := Perform(lit, dist, r.value, out);
      var after := pos + |ElementText(lit, dist, r.value)|;
      CompletesWithin(s, I.Config(st, next, after));
      var rest := ElementsBack(st, isFinal, lit, dist, s, after, next);
      es := [r.value] + rest;
      ElementFirst(lit, dist, r.value, rest, out, s, pos);
    }
  }

  lemma {:induction false} NoElements(lit: seq<nat>, dist: seq<nat>, out: seq<byte>)
    requires Codes(lit, dist)
    ensures ElementsOk(lit, dist, [], out) && ElementsText(lit, dist, [], out) == []
    ensures WidthsOk(SortedEntries(lit)) && [] + Word(lit, END_OF_BLOCK) == Word(lit, END_OF_BLOCK)
  {
    AcceptableWidths(lit);
  }

  /** The three things the symbol loop can do. */
  lemma {:induction false} LoopSteps(st: I.State, s: BitString, pos: nat, out: seq<byte>)
    requires pos <= |s| && st.SymbolLoop? && I.StepSymbol(s, st, out, pos).Next?
    ensures var d := Decode(st.literal, s, pos);
            d.Symbol? && d.symbol <= 285 &&
            var next := I.StepSymbol(s, st, out, pos).config;
            (d.symbol <= 255 ==> next == I.Config(st, out + [d.symbol], pos + d.width))
            && (257 <= d.symbol ==> next.state == st)
  {
    hide Decode, CopyBytewise, I.ReadPointer;
  }

  lemma {:induction false} ElementFirst(lit: seq<nat>, dist: seq<nat>, e: Element, rest: seq<Element>, out: seq<byte>,
      s: BitString, pos: nat)
    requires Codes(lit, dist) && ElementOk(lit, dist, e, |out|)
    requires ElementsOk(lit, dist, rest, Perform(lit, dist, e, out))
    requires |lit| > END_OF_BLOCK && WidthsOk(SortedEntries(lit)) && WidthsOk(SortedEntries(dist))
    requires At(s, pos, ElementText(lit, dist, e))
    requires At(s, pos + |ElementText(lit, dist, e)|,
                ElementsText(lit, dist, rest, Perform(lit, dist, e, out)) + Word(lit, END_OF_BLOCK))
    ensures ElementsOk(lit, dist, [e] + rest, out)
    ensures At(s, pos, ElementsText(lit, dist, [e] + rest, out) + Word(lit, END_OF_BLOCK))
  {
    hide Codes, ElementOk, Perform, ElementText, At, Word;
    var es := [e] + rest;
    assert es[0] == e && es[1..] == rest;
    var text, more := ElementText(lit, dist, e), ElementsText(lit, dist, rest, Perform(lit, dist, e, out));
    AtSplit(s, pos, text, more + Word(lit, END_OF_BLOCK));
    BitIo.Associative(text, more, Word(lit, END_OF_BLOCK));
  }

  // ----- Tables -----

  lemma {:induction false} SlotsApart(i: nat, j: nat)
    requires i < 19 && j < 19 && i != j
    ensures OrderSlot(i) != OrderSlot(j)
  {
    SlotBack(i);
    SlotBack(j);
  }

  lemma {:induction false} SlotBack(i: nat)
    requires i < 19
    ensures OrderIndex(OrderSlot(i)) == i
  {
    if i < 8 {
      assert i == 0 || i == 1 || i == 2 || i == 3 || i == 4 || i == 5 || i == 6 || i == 7;
    } else if i < 16 {
      assert i == 8 || i == 9 || i == 10 || i == 11 || i == 12 || i == 13 || i == 14 || i == 15;
    } else {
      assert i == 16 || i == 17 || i == 18;
    }
  }

  /** The slots of `a` up to place `i`, and from place `n` on, are `b`'s. */
  ghost predicate SameSlots(a: seq<nat>, b: seq<nat>, i: nat, n: nat) {
    |a| == |b| == 19 && (forall j :: 0 <= j < i && j < 19 ==> a[OrderSlot(j)] == b[OrderSlot(j)])
    && (forall j :: n <= j < 19 ==> a[OrderSlot(j)] == b[OrderSlot(j)])
  }

  lemma {:induction false} SameSlotsBack(a: seq<nat>, lengths: seq<nat>, i: nat, n: nat, v: nat)
    requires i < n <= 19 && |lengths| == 19 && SameSlots(a, lengths[OrderSlot(i) := v], i + 1, n)
    ensures SameSlots(a, lengths, i, n) && a[OrderSlot(i)] == v
  {
    hide OrderSlot;
    forall j | 0 <= j < 19 && j != i ensures lengths[OrderSlot(i) := v][OrderSlot(j)] == lengths[OrderSlot(j)] {
      SlotsApart(i, j);
    }
  }

  ghost function Reading(isFinal: bool, hlit: nat, hdist: nat, n: nat, i: nat, lengths: seq<nat>): I.State {
    I.DynamicBitwidthTable(isFinal, hlit, hdist, n, i, lengths)
  }

  /** The code-length lengths that are read, and where their reading ends. */
  lemma {:induction false} OrderBack(s: BitString, pos: nat, out: seq<byte>, isFinal: bool, hlit: nat, hdist: nat,
      n: nat, i: nat, lengths: seq<nat>)
    returns (bw: seq<nat>)
    requires i <= n <= 19 && |lengths| == 19 && (forall j :: 0 <= j < 19 ==> lengths[j] <= 7)
    requires Completes(s, I.Config(Reading(isFinal, hlit, hdist, n, i, lengths), out, pos))
    ensures SameSlots(bw, lengths, i, n) && (forall j :: 0 <= j < 19 ==> bw[j] <= 7)
    ensures At(s, pos, OrderBits(bw, i, n))
    ensures Completes(s, I.Config(Reading(isFinal, hlit, hdist, n, n, bw), out, pos + |OrderBits(bw, i, n)|))
    decreases n - i
  {
    hide Completes, I.Step, I.Run, I.Field, ToBits, At, OrderSlot, MakeCode;
    var c := I.Config(Reading(isFinal, hlit, hdist, n, i, lengths), out, pos);
    CompletesOn(s, c);
    I.BitwidthCase(s, c);
    if i == n {
      bw := lengths;
      AtNothing(s, pos);
    } else {
      FieldBack(s, pos, 3);
      Pow2Values();
      var v := I.Field(s, pos, 3);
      bw := OrderBack(s, pos + 3, out, isFinal, hlit, hdist, n, i + 1, lengths[OrderSlot(i) := v]);
      SameSlotsBack(bw, lengths, i, n, v);
      AtSplit(s, pos, ToBits(v, 3), OrderBits(bw, i + 1, n));
    }
  }

  /** One run-length code that is read stands there. */
  lemma {:induction false} CodeBack(code: Code, bw: seq<nat>, sofar: seq<nat>, s: BitString, pos: nat)
    returns (c: WidthCode)
    requires WidthCodeFor(code, bw) && |bw| == 19 && pos <= |s| && I.ReadLengthRun(code, sofar, s, pos).LengthRun?
    ensures Readable(c, sofar) && c.code < 19 && bw[c.code] > 0 && WidthsOk(SortedEntries(bw))
    ensures At(s, pos, SymbolBits(bw, AsSymbol(c)))
    ensures I.ReadLengthRun(code, sofar, s, pos) == I.LengthRun(Piece(c, sofar), pos + |SymbolBits(bw, AsSymbol(c))|)
  {
    hide Decode, At, Word, I.Field, ToBits, SortedEntries, Acceptable, I.Repeat;
    WidthCodePeek(code, bw);
    AcceptableWidths(bw);
    WordBack(bw, code, s, pos);
    Pow2Values();
    var d := Decode(code, s, pos);
    var n := if d.symbol == 16 then 2 else if d.symbol == 17 then 3 else if d.symbol == 18 then 7 else 0;
    FieldBack(s, pos + d.width, n);
    c := WidthCode(d.symbol, n, I.Field(s, pos + d.width, n));
    AtSplit(s, pos, Word(bw, c.code), ToBits(c.extra, c.extraBits));
    if n == 0 { ZeroField(s, pos + d.width); }
  }

  lemma {:induction false} ZeroField(s: BitString, pos: nat)
    requires pos <= |s|
    ensures I.Field(s, pos, 0) == 0
  {}

  /** The codes that are read until all widths are there. */
  lemma {:induction false} CodesBack(s: BitString, pos: nat, out: seq<byte>, isFinal: bool, hlit: nat, hdist: nat,
      code: Code, bw: seq<nat>, sofar: seq<nat>)
    returns (codes: seq<WidthCode>)
    requires WidthCodeFor(code, bw) && |bw| == 19 && (forall j :: 0 <= j < 19 ==> bw[j] <= 7)
    requires |sofar| <= hlit + hdist
    requires Completes(s, I.Config(LengthsState(isFinal, hlit, hdist, code, sofar), out, pos))
    ensures WidthsCoded(bw, codes) && AllReadable(codes, sofar) && |Unpack(codes, sofar)| == hlit + hdist
    ensures At(s, pos, CodesBits(bw, codes))
    ensures Completes(s, I.Config(LengthsState(isFinal, hlit, hdist, code, Unpack(codes, sofar)), out,
                                  pos + |CodesBits(bw, codes)|))
    decreases hlit + hdist - |sofar|
  {
    hide Completes, I.Step, I.Run, At, Acceptable, SymbolBits, SortedEntries, I.ReadLengthRun, I.EnterSymbolLoop, Piece,
         Readable, WidthCodeFor;
    WidthCodePeek(code, bw);
    var c := I.Config(LengthsState(isFinal, hlit, hdist, code, sofar), out, pos);
    CompletesOn(s, c);
    codes := [];
    if |sofar| == hlit + hdist {
      CompletesWithin(s, c);
      AtNothing(s, pos);
    } else {
      I.CodeLengthsCase(s, c);
      var w := CodeBack(code, bw, sofar, s, pos);
      PieceAdds(w, sofar);
      var bits := SymbolBits(bw, AsSymbol(w));
      var rest := CodesBack(s, pos + |bits|, out, isFinal, hlit, hdist, code, bw, sofar + Piece(w, sofar));
      codes := [w] + rest;
      assert codes[1..] == rest;
      AtSplit(s, pos, bits, CodesBits(bw, rest));
    }
  }

  lemma {:induction false} CompletesWithin(s: BitString, c: I.Config)
    requires Completes(s, c)
    ensures I.ValidConfig(s, c) && c.pos <= |s|
  {
    hide I.Run, I.ValidState;
  }

  /** The counts that are read. */
  lemma {:induction false} CountsBack(s: BitString, pos: nat, out: seq<byte>, isFinal: bool)
    returns (hlit: nat, hdist: nat, n: nat)
    requires Completes(s, I.Config(I.DynamicHeader(isFinal), out, pos))
    ensures 257 <= hlit <= 288 && 1 <= hdist <= 30 && 4 <= n <= 19 && At(s, pos, CountsBits(hlit, hdist, n))
    ensures Completes(s, I.Config(Reading(isFinal, hlit, hdist, n, 0, I.Repeat(0, 19)), out, pos + 14))
  {
    hide Completes, I.Step, I.Run, I.Field, ToBits, At, I.Repeat;
    var c := I.Config(I.DynamicHeader(isFinal), out, pos);
    CompletesOn(s, c);
    I.DynamicHeaderCase(s, c);
    Pow2Values();
    FieldBack(s, pos, 5);
    FieldBack(s, pos + 5, 5);
    FieldBack(s, pos + 10, 4);
    hlit, hdist, n := I.Field(s, pos, 5) + 257, I.Field(s, pos + 5, 5) + 1, I.Field(s, pos + 10, 4) + 4;
    JoinThree(s, pos, ToBits(hlit - 257, 5), ToBits(hdist - 1, 5), ToBits(n - 4, 4));
  }

  /** The code for code lengths that is built. */
  lemma {:induction false} WidthCodeBack(s: BitString, pos: nat, out: seq<byte>, isFinal: bool, hlit: nat, hdist: nat,
      n: nat, bw: seq<nat>)
    returns (code: Code)
    requires |bw| == 19 && Completes(s, I.Config(Reading(isFinal, hlit, hdist, n, n, bw), out, pos))
    ensures WidthCodeFor(code, bw)
    ensures Completes(s, I.Config(LengthsState(isFinal, hlit, hdist, code, []), out, pos))
  {
    hide Completes, I.Step, I.Run, I.Field, Acceptable, SortedEntries, MakeCode;
    var c := I.Config(Reading(isFinal, hlit, hdist, n, n, bw), out, pos);
    CompletesOn(s, c);
    I.BitwidthCase(s, c);
    PeekAsAsked(bw, 1);
    EntriesMade(bw, Some(1), None);
    code := MakeCode(bw, Some(1), None).value;
  }

  /** The symbol loop that is entered. */
  lemma {:induction false} LoopBack(s: BitString, pos: nat, out: seq<byte>, isFinal: bool, hlit: nat, hdist: nat,
      code: Code, widths: seq<nat>)
    returns (st: I.State)
    requires |widths| == hlit + hdist
    requires Completes(s, I.Config(LengthsState(isFinal, hlit, hdist, code, widths), out, pos))
    ensures Looping(st, isFinal, widths[..hlit], widths[hlit..]) && Completes(s, I.Config(st, out, pos))
  {
    hide Completes, I.Step, I.Run, I.EnterSymbolLoop, LoopWith, Acceptable, Kraft;
    var before := LengthsState(isFinal, hlit, hdist, code, widths);
    var c := I.Config(before, out, pos);
    CompletesOn(s, c);
    I.CodeLengthsCase(s, c);
    LoopEntered(before, out, pos);
    I.DynamicAcceptedIff(before, out, pos);
    AcceptableIff(widths[..hlit]);
    AcceptableIff(widths[hlit..]);
    st := I.EnterSymbolLoop(before, out, pos).config.state;
    CompletesWithin(s, I.Config(st, out, pos));
  }

  /** The tables that are read. */
  lemma {:induction false} TablesBack(s: BitString, pos: nat, out: seq<byte>, isFinal: bool)
    returns (t: Tables, st: I.State)
    requires Completes(s, I.Config(I.DynamicHeader(isFinal), out, pos))
    ensures t.DynamicTables? && Describing(t.hlit, t.hdist, t.n, t.bw, t.codes)
    ensures At(s, pos, TablesText(t.hlit, t.hdist, t.n, t.bw, t.codes))
    ensures Looping(st, isFinal, LiteralLengths(t), DistanceLengths(t))
    ensures Completes(s, I.Config(st, out, pos + |TablesText(t.hlit, t.hdist, t.n, t.bw, t.codes)|))
  {
    hide Completes, At, Looping, WidthsCoded, Unpack, AllReadable, CodesBits, OrderBits, CountsBits, OrderSlot,
         WidthCodeFor, LengthsState, Reading, I.Repeat;
    var hlit, hdist, n := CountsBack(s, pos, out, isFinal);
    CountsLength(hlit, hdist, n);
    var bw := OrderBack(s, pos + 14, out, isFinal, hlit, hdist, n, 0, I.Repeat(0, 19));
    ZerosBeyond(bw, n);
    var p := pos + 14 + |OrderBits(bw, 0, n)|;
    var code := WidthCodeBack(s, p, out, isFinal, hlit, hdist, n, bw);
    var codes := CodesBack(s, p, out, isFinal, hlit, hdist, code, bw, []);
    t := DynamicTables(hlit, hdist, n, bw, codes);
    JoinThree(s, pos, CountsBits(hlit, hdist, n), OrderBits(bw, 0, n), CodesBits(bw, codes));
    DescribingLengths(t);
    st := LoopBack(s, p + |CodesBits(bw, codes)|, out, isFinal, hlit, hdist, code, Unpack(codes, []));
  }

  lemma {:induction false} ZerosBeyond(bw: seq<nat>, n: nat)
    requires n <= 19 && SameSlots(bw, I.Repeat(0, 19), 0, n)
    ensures forall i :: n <= i < 19 ==> bw[OrderSlot(i)] == 0
  {
    hide OrderSlot;
  }

  lemma {:induction false} DescribingParts(t: Tables)
    requires t.DynamicTables? && Describing(t.hlit, t.hdist, t.n, t.bw, t.codes)
    ensures 257 <= t.hlit && 1 <= t.hdist && 4 <= t.n <= 19 && WidthsCoded(t.bw, t.codes)
  {
    hide Unpack, WidthsCoded, OrderSlot, AllReadable;
  }

  // ----- Blocks -----

  lemma {:induction false} HeaderBack(s: BitString, pos: nat)
    requires pos + 3 <= |s|
    ensures I.Field(s, pos + 1, 2) == BitVal(s[pos + 1]) + 2 * BitVal(s[pos + 2])
    ensures At(s, pos, [s[pos], s[pos + 1], s[pos + 2]])
  {
    assert s[pos..pos + 3] == [s[pos], s[pos + 1], s[pos + 2]];
    var b := s[pos + 1..pos + 3];
    var last := b[1..];
    assert b[0] == s[pos + 1] && last == [s[pos + 2]] && last[1..] == [];
    assert FromBits(last) == BitVal(s[pos + 2]) + 2 * FromBits([]) && FromBits([]) == 0;
  }

  /** Tables and elements in place are a block in place. */
  lemma {:induction false} CodedInPlace(s: BitString, pos: nat, out: seq<byte>, isFinal: bool, t: Tables,
      es: seq<Element>)
    requires TablesOk(t) && ElementsOk(LiteralLengths(t), DistanceLengths(t), es, out)
    requires Codes(LiteralLengths(t), DistanceLengths(t)) && WidthsOk(SortedEntries(LiteralLengths(t)))
    requires At(s, pos, [isFinal, t.FixedTables?, t.DynamicTables?]) && At(s, pos + 3, TablesBitsOf(t))
    requires At(s, pos + 3 + |TablesBitsOf(t)|,
                ElementsText(LiteralLengths(t), DistanceLengths(t), es, out) + Word(LiteralLengths(t), END_OF_BLOCK))
    ensures var b := CodedBlock(isFinal, t, es); BlockOk(b, pos, out) && At(s, pos, BlockText(b, pos, out))
  {
    hide At, TablesOk, ElementsOk, ElementsText, TablesBitsOf, LiteralLengths, DistanceLengths, Word;
    JoinThree(s, pos, [isFinal, t.FixedTables?, t.DynamicTables?], TablesBitsOf(t),
              ElementsText(LiteralLengths(t), DistanceLengths(t), es, out) + Word(LiteralLengths(t), END_OF_BLOCK));
  }

  lemma {:induction false} FixedBack(s: BitString, pos: nat, out: seq<byte>, isFinal: bool) returns (b: Block)
    requires Completes(s, I.Config(FixedLoop(isFinal), out, pos + 3)) && At(s, pos, [isFinal, true, false])
    ensures b.isFinal == isFinal && BlockOk(b, pos, out) && At(s, pos, BlockText(b, pos, out))
  {
    hide Completes, At, Looping, InLoop, FixedLoop, ElementsOk, ElementsText, Word, TablesOk, FixedLiteralLengths,
         FixedDistanceLengths, BlockOk, BlockText, Codes, WidthsOk;
    var lit, dist := FixedLiteralLengths(), FixedDistanceLengths();
    FixedInLoop(isFinal);
    FixedFinal(isFinal);
    FixedLoops(isFinal);
    var es := ElementsBack(FixedLoop(isFinal), isFinal, lit, dist, s, pos + 3, out);
    b := CodedBlock(isFinal, FixedTables, es);
    FixedOk();
    CompletesWithin(s, I.Config(FixedLoop(isFinal), out, pos + 3));
    AtNothing(s, pos + 3);
    CodedInPlace(s, pos, out, isFinal, FixedTables, es);
  }

  lemma {:induction false} FixedLoops(isFinal: bool)
    requires InLoop(FixedLoop(isFinal), FixedLiteralLengths(), FixedDistanceLengths())
    requires FixedLoop(isFinal).SymbolLoop? && FixedLoop(isFinal).isFinal == isFinal
    ensures Looping(FixedLoop(isFinal), isFinal, FixedLiteralLengths(), FixedDistanceLengths())
  {
    hide InLoop, LoopWith, FixedLoop, FixedLiteralLengths, FixedDistanceLengths, Acceptable, Lengths;
    LoopWithIs(FixedLoop(isFinal), FixedLiteralLengths(), FixedDistanceLengths());
    InLoopPeeks(FixedLoop(isFinal), FixedLiteralLengths(), FixedDistanceLengths());
    LengthsParts(FixedLiteralLengths(), FixedDistanceLengths());
  }

  lemma {:induction false} FixedOk()
    ensures TablesOk(FixedTables)
  {
    hide Acceptable, FixedLiteralLengths, FixedDistanceLengths, Lengths;
    FixedLengths();
    LengthsParts(FixedLiteralLengths(), FixedDistanceLengths());
  }

  lemma {:induction false} DynamicBack(s: BitString, pos: nat, out: seq<byte>, isFinal: bool) returns (b: Block)
    requires Completes(s, I.Config(I.DynamicHeader(isFinal), out, pos + 3)) && At(s, pos, [isFinal, false, true])
    ensures b.isFinal == isFinal && BlockOk(b, pos, out) && At(s, pos, BlockText(b, pos, out))
  {
    hide Completes, At, Looping, Describing, Acceptable, ElementsOk, ElementsText, Word, TablesText, LiteralLengths,
         DistanceLengths, BlockOk, BlockText, WidthsOk;
    var t, st := TablesBack(s, pos + 3, out, isFinal);
    DescribingParts(t);
    var lit, dist := LiteralLengths(t), DistanceLengths(t);
    var text := TablesText(t.hlit, t.hdist, t.n, t.bw, t.codes);
    var es := ElementsBack(st, isFinal, lit, dist, s, pos + 3 + |text|, out);
    b := CodedBlock(isFinal, t, es);
    CodedInPlace(s, pos, out, isFinal, t, es);
  }

  /** What a completing run reads at a block's front is a block. */
  lemma {:induction false} BlockBack(s: BitString, pos: nat, out: seq<byte>) returns (b: Block)
    requires Completes(s, I.Config(I.BlockHeader, out, pos))
    ensures BlockOk(b, pos, out) && At(s, pos, BlockText(b, pos, out)) && |BlockText(b, pos, out)| > 0
    ensures Completes(s, I.Config(After(b.isFinal), BlockOutput(b, pos, out), pos + |BlockText(b, pos, out)|))
  {
    hide Completes, I.Step, I.Run, I.Field, At, BlockOk, BlockText, BlockOutput, FixedLoop, I.FixedLiteralCode,
         I.FixedDistanceCode;
    var c := I.Config(I.BlockHeader, out, pos);
    CompletesOn(s, c);
    I.BlockHeaderCase(s, c);
    HeaderBack(s, pos);
    var isFinal := s[pos];
    if I.Field(s, pos + 1, 2) == 0 {
      b := StoredBack(s, pos, out, isFinal);
    } else if I.Field(s, pos + 1, 2) == 1 {
      FixedLoopIs(isFinal);
      b := FixedBack(s, pos, out, isFinal);
    } else {
      b := DynamicBack(s, pos, out, isFinal);
    }
    BlockForward(s, pos, out, b);
    SameCompletes(s, c, I.Config(After(b.isFinal), BlockOutput(b, pos, out), pos + |BlockText(b, pos, out)|));
    TextNotEmpty(b, pos, out);
  }

  lemma {:induction false} FixedLoopIs(isFinal: bool)
    ensures I.FixedLiteralCode().Some? && I.FixedDistanceCode().Some?
    ensures FixedLoop(isFinal) == I.SymbolLoop(isFinal, I.FixedLiteralCode().value, I.FixedDistanceCode().value)
  {
    I.FixedCodes();
  }

  lemma {:induction false} SameCompletes(s: BitString, a: I.Config, b: I.Config)
    requires Completes(s, a) && Leads(s, a, b)
    ensures Completes(s, b)
  {
    hide I.Run, I.ValidState;
  }

  lemma {:induction false} TextNotEmpty(b: Block, pos: nat, out: seq<byte>)
    requires BlockOk(b, pos, out)
    ensures |BlockText(b, pos, out)| >= 3
  {
    hide TablesOk, ElementsOk, ElementsText, TablesBitsOf, Word, ToBits, BytesToBits;
  }

  /** What is accepted is a well-formed stream. */
  lemma {:induction false} StreamBack(s: BitString, pos: nat, out: seq<byte>) returns (bs: seq<Block>)
    requires Completes(s, I.Config(I.BlockHeader, out, pos))
    ensures StreamOk(bs, pos, out) && At(s, pos, StreamText(bs, pos, out))
    decreases |s| - pos
  {
    hide Completes, At, BlockOk, BlockText, BlockOutput;
    CompletesWithin(s, I.Config(I.BlockHeader, out, pos));
    var b := BlockBack(s, pos, out);
    var text, next := BlockText(b, pos, out), BlockOutput(b, pos, out);
    if b.isFinal {
      bs := [b];
      assert bs[1..] == [] && text + [] == text;
    } else {
      AtBound(s, pos, text);
      var rest := StreamBack(s, pos + |text|, next);
      bs := [b] + rest;
      assert bs[1..] == rest;
      AtSplit(s, pos, text, StreamText(rest, pos + |text|, next));
    }
  }

  /** A well-formed stream for `out` stands at the front of `s` and is `n` bits long. */
  ghost predicate WellFormed(s: BitString, out: seq<byte>, n: nat) {
    exists bs: seq<Block> ::
      StreamOk(bs, 0, []) && At(s, 0, StreamText(bs, 0, [])) && StreamOutput(bs, 0, []) == out
      && |StreamText(bs, 0, [])| == n
  }

  /** The machine completes exactly on the well-formed streams, with exactly the output they stand for, exactly
      at their end. */
  lemma {:induction false} CompleteIffWellFormed(s: BitString, out: seq<byte>, n: nat)
    ensures I.Run(s, I.Init) == I.Complete(I.Config(I.Finished, out, n)) <==> WellFormed(s, out, n)
  {
    hide I.Run, At, StreamOk, StreamText, StreamOutput, Completes;
    if I.Run(s, I.Init).Complete? {
      InitCompletes(s);
      var bs := StreamBack(s, 0, []);
      StreamForward(s, 0, [], bs);
    }
    if WellFormed(s, out, n) {
      var bs: seq<Block> :| StreamOk(bs, 0, []) && At(s, 0, StreamText(bs, 0, []))
                            && StreamOutput(bs, 0, []) == out && |StreamText(bs, 0, [])| == n;
      StreamForward(s, 0, [], bs);
    }
  }

  lemma {:induction false} InitCompletes(s: BitString)
    requires I.Run(s, I.Init).Complete?
    ensures Completes(s, I.Config(I.BlockHeader, [], 0))
  {
    hide I.Run;
  }

  /** The bytes begin with a well-formed stream for `out`. */
  ghost predicate Encodes(data: seq<byte>, out: seq<byte>) {
    exists n: nat :: WellFormed(BytesToBits(data), out, n)
  }

  /** So a byte string is decompressed to `out` exactly if it begins with a well-formed stream for `out`. */
  lemma {:induction false} DecompressedIff(data: seq<byte>, out: seq<byte>)
    ensures S.OneShotResult(S.RunOf(data)) == Ok(out) <==> Encodes(data, out)
  {
    hide I.Run, StreamOk, StreamText, StreamOutput, At, Completes, BytesToBits, WellFormed;
    var s := BytesToBits(data);
    var r := I.Run(s, I.Init);
    if r.Complete? {
      InitCompletes(s);
      var bs := StreamBack(s, 0, []);
      StreamForward(s, 0, [], bs);
      CompleteIffWellFormed(s, out, r.config.pos);
    }
    if Encodes(data, out) {
      var n: nat :| WellFormed(s, out, n);
      CompleteIffWellFormed(s, out, n);
    }
  }
}
