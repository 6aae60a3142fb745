/** What the decoder refuses, and as what.  Wherever a block may stand, bits that break a rule of the format make
    the whole run fail with that rule's error (section 3.2 of RFC 1951; src/decode.rs). */
module Refusals {
  import opened Bits
  import opened BitIo
  import opened Errors
  import opened Canonical
  import opened Huffman
  import opened Symbols
  import opened Window
  import opened RunLengths
  import opened Blocks
  import opened DynamicBlocks
  import opened Format
  import I = Inflate

  /** A block's front: the run of the whole stream is the run from here, with `out` made so far. */
  ghost predicate Front(s: BitString, pos: nat, out: seq<byte>) {
    Leads(s, I.Init, I.Config(I.BlockHeader, out, pos))
  }

  /** Where a stream was recovered so far, the front of the next block is. */
  lemma {:induction false} RecoveredIsFront(bits: BitString, s: BitString, out: seq<byte>)
    requires I.Run(bits, I.Init) == I.Stuck(I.Config(I.BlockHeader, out, |bits|)) && bits <= s
    ensures Front(s, |bits|, out)
  {
    hide I.Run;
    I.RunExtends(bits, s, I.Init);
  }

  /** Behind a block that is not the last, the front of the next one is. */
  lemma {:induction false} NextFront(s: BitString, pos: nat, out: seq<byte>, b: Block)
    requires Front(s, pos, out) && BlockOk(b, pos, out) && !b.isFinal && At(s, pos, BlockText(b, pos, out))
    ensures Front(s, pos + |BlockText(b, pos, out)|, BlockOutput(b, pos, out))
  {
    hide Leads, BlockOk, BlockText, BlockOutput, At;
    BlockForward(s, pos, out, b);
    LeadsOn(s, I.Init, I.Config(I.BlockHeader, out, pos),
            I.Config(I.BlockHeader, BlockOutput(b, pos, out), pos + |BlockText(b, pos, out)|));
  }

  /** The whole run fails with this error. */
  ghost predicate Refused(s: BitString, e: Error) {
    FailsFrom(s, I.Init, e)
  }

  lemma {:induction false} RefusedAt(s: BitString, pos: nat, out: seq<byte>, c: I.Config, e: Error)
    requires Front(s, pos, out) && Leads(s, I.Config(I.BlockHeader, out, pos), c) && I.Step(s, c) == I.Fail(e)
    ensures Refused(s, e)
  {
    hide Leads, I.Step, I.ValidState, FailsFrom;
    LeadsWithin(s, I.Config(I.BlockHeader, out, pos), c);
    LeadsOn(s, I.Init, I.Config(I.BlockHeader, out, pos), c);
    FailsAtEnd(s, I.Init, c, e);
  }

  lemma {:induction false} FrontWithin(s: BitString, pos: nat, out: seq<byte>)
    requires Front(s, pos, out)
    ensures I.ValidConfig(s, I.Config(I.BlockHeader, out, pos)) && pos <= |s|
  {
    hide Leads, I.ValidState;
    LeadsWithin(s, I.Init, I.Config(I.BlockHeader, out, pos));
  }

  // ----- Block headers and stored blocks -----

  /** Kind 3 is reserved. */
  lemma {:induction false} ReservedKind(s: BitString, pos: nat, out: seq<byte>, isFinal: bool)
    requires Front(s, pos, out) && At(s, pos, [isFinal, true, true])
    ensures Refused(s, ReservedBlockType)
  {
    hide Front, Refused, Leads, I.Step, I.Field, I.FixedLiteralCode, I.FixedDistanceCode;
    FrontWithin(s, pos, out);
    assert s[pos..pos + 3] == [isFinal, true, true];
    assert s[pos + 1] == s[pos..pos + 3][1] && s[pos + 2] == s[pos..pos + 3][2];
    HeaderBack(s, pos);
    var c := I.Config(I.BlockHeader, out, pos);
    I.BlockHeaderCase(s, c);
    StaysPut(s, c);
    RefusedAt(s, pos, out, c, ReservedBlockType);
  }

  /** A stored length goes with its complement and nothing else. */
  lemma {:induction false} WrongComplement(s: BitString, pos: nat, out: seq<byte>, isFinal: bool, pad: BitString,
      len: nat, nlen: nat)
    requires Front(s, pos, out) && |pad| == PadTo8(pos + 3) && len <= 0xFFFF && nlen <= 0xFFFF && nlen != 0xFFFF - len
    requires At(s, pos, [isFinal, false, false] + pad + (ToBits(len, 16) + ToBits(nlen, 16)))
    ensures Refused(s, StoredLengthMismatch)
  {
    hide Front, Refused, Leads, I.Step, I.Field, ToBits, At, HeaderBits, I.Run, I.ValidState;
    FrontWithin(s, pos, out);
    AtThree(s, pos, [isFinal, false, false], pad, ToBits(len, 16) + ToBits(nlen, 16));
    HeaderIs(isFinal);
    HeaderAt(s, pos, isFinal, 0);
    StoredStart(s, pos, out, isFinal);
    var start := pos + 3 + PadTo8(pos + 3);
    AtSplit(s, start, ToBits(len, 16), ToBits(nlen, 16));
    Pow2Values();
    FieldAt(s, start, len, 16);
    FieldAt(s, start + 16, nlen, 16);
    var c := I.Config(I.StoredAlignAndLen(isFinal), out, pos + 3);
    LeadsWithin(s, I.Config(I.BlockHeader, out, pos), c);
    I.StoredHeaderCase(s, c);
    RefusedAt(s, pos, out, c, StoredLengthMismatch);
  }

  // ----- Headers of dynamic blocks -----

  /** No more than 30 distance codes. */
  lemma {:induction false} TooManyDistances(s: BitString, pos: nat, out: seq<byte>, isFinal: bool, hlit: nat,
      hdist: nat,
      n: nat)
    requires Front(s, pos, out) && 257 <= hlit <= 288 && 31 <= hdist <= 32 && 4 <= n <= 19
    requires At(s, pos, [isFinal, false, true] + CountsBits(hlit, hdist, n))
    ensures Refused(s, TooManyDistanceCodes)
  {
    hide Front, Refused, Leads, I.Step, I.Field, CountsBits, At, HeaderBits, I.Run, I.ValidState;
    FrontWithin(s, pos, out);
    AtSplit(s, pos, [isFinal, false, true], CountsBits(hlit, hdist, n));
    HeaderIs(isFinal);
    DynamicStart(s, pos, out, isFinal);
    CountsRead(s, pos + 3, hlit, hdist, n);
    var c := I.Config(I.DynamicHeader(isFinal), out, pos + 3);
    LeadsWithin(s, I.Config(I.BlockHeader, out, pos), c);
    I.DynamicHeaderCase(s, c);
    RefusedAt(s, pos, out, c, TooManyDistanceCodes);
  }

  /** A header up to the code-length lengths brings the machine to where their code is built. */
  lemma {:induction false} OrderRead(s: BitString, pos: nat, out: seq<byte>, isFinal: bool, hlit: nat, hdist: nat,
      n: nat,
      bw: seq<nat>)
    requires |bw| == 19 && 257 <= hlit <= 288 && 1 <= hdist <= 30 && 4 <= n <= 19
    requires (forall j :: 0 <= j < 19 ==> bw[j] <= 7) && (forall i :: n <= i < 19 ==> bw[OrderSlot(i)] == 0)
    requires At(s, pos, [isFinal, false, true] + (CountsBits(hlit, hdist, n) + OrderBits(bw, 0, n)))
    ensures Leads(s, I.Config(I.BlockHeader, out, pos),
                  I.Config(Reading(isFinal, hlit, hdist, n, n, bw), out, pos + 17 + |OrderBits(bw, 0, n)|))
  {
    hide Leads, I.Step, CountsBits, OrderBits, At, HeaderBits, I.Run, I.ValidState, OrderSlot, Placed;
    AtSplit(s, pos, [isFinal, false, true], CountsBits(hlit, hdist, n) + OrderBits(bw, 0, n));
    AtSplit(s, pos + 3, CountsBits(hlit, hdist, n), OrderBits(bw, 0, n));
    CountsLength(hlit, hdist, n);
    HeaderIs(isFinal);
    DynamicStart(s, pos, out, isFinal);
    DynamicHeaderLeads(s, pos + 3, out, isFinal, hlit, hdist, n, bw);
    OrderLeads(s, pos + 17, out, isFinal, hlit, hdist, n, bw, 0);
    PlacedWhole(bw, n);
    var a := I.Config(I.BlockHeader, out, pos);
    var b := I.Config(TableState(isFinal, hlit, hdist, n, bw, 0), out, pos + 17);
    LeadsOn(s, a, I.Config(I.DynamicHeader(isFinal), out, pos + 3), b);
    LeadsOn(s, a, b, I.Config(Reading(isFinal, hlit, hdist, n, n, bw), out, pos + 17 + |OrderBits(bw, 0, n)|));
  }

  /** The code-length lengths must make a code. */
  lemma {:induction false} NoWidthCode(s: BitString, pos: nat, out: seq<byte>, isFinal: bool, hlit: nat, hdist: nat,
      n: nat, bw: seq<nat>)
    requires |bw| == 19 && 257 <= hlit <= 288 && 1 <= hdist <= 30 && 4 <= n <= 19
    requires (forall j :: 0 <= j < 19 ==> bw[j] <= 7) && (forall i :: n <= i < 19 ==> bw[OrderSlot(i)] == 0)
    requires Front(s, pos, out) && !I.MakesACode(bw)
    requires At(s, pos, [isFinal, false, true] + (CountsBits(hlit, hdist, n) + OrderBits(bw, 0, n)))
    ensures Refused(s, BadCodeLengths)
  {
    hide Front, Refused, Leads, I.Step, CountsBits, OrderBits, At, I.Run, Kraft, Acceptable, OrderSlot, SortedEntries;
    OrderRead(s, pos, out, isFinal, hlit, hdist, n, bw);
    var c := I.Config(Reading(isFinal, hlit, hdist, n, n, bw), out, pos + 17 + |OrderBits(bw, 0, n)|);
    LeadsWithin(s, I.Config(I.BlockHeader, out, pos), c);
    I.BitwidthCase(s, c);
    AcceptableIff(bw);
    RefusedAt(s, pos, out, c, BadCodeLengths);
  }

  /** A header with some of its codes, which stand for no more widths than counted. */
  ghost predicate Underway(hlit: nat, hdist: nat, n: nat, bw: seq<nat>, codes: seq<WidthCode>) {
    257 <= hlit <= 288 && 1 <= hdist <= 30 && 4 <= n <= 19 && WidthsCoded(bw, codes)
    && (forall i :: n <= i < 19 ==> bw[OrderSlot(i)] == 0)
    && AllReadable(codes, []) && |Unpack(codes, [])| < hlit + hdist
  }

  lemma {:induction false} UnderwayParts(hlit: nat, hdist: nat, n: nat, bw: seq<nat>, codes: seq<WidthCode>)
    requires Underway(hlit, hdist, n, bw, codes)
    ensures 257 <= hlit <= 288 && 1 <= hdist <= 30 && 4 <= n <= 19 && |bw| == 19 && WidthsCoded(bw, codes)
    ensures Acceptable(bw) && (forall j :: 0 <= j < 19 ==> bw[j] <= 7)
    ensures forall i :: n <= i < 19 ==> bw[OrderSlot(i)] == 0
    ensures AllReadable(codes, []) && |Unpack(codes, [])| < hlit + hdist && WidthsOk(SortedEntries(bw))
  {
    hide OrderSlot, AllReadable, Unpack, SortedEntries, Acceptable;
    AcceptableWidths(bw);
  }

  /** Up to the codes read so far, with at least one bit behind them. */
  lemma {:induction false} CodesRead(s: BitString, pos: nat, out: seq<byte>, isFinal: bool, hlit: nat, hdist: nat,
      n: nat,
      bw: seq<nat>, codes: seq<WidthCode>)
    returns (code: Code)
    requires Underway(hlit, hdist, n, bw, codes)
    requires var text := [isFinal, false, true] + TablesText(hlit, hdist, n, bw, codes);
             At(s, pos, text) && pos + |text| < |s|
    ensures WidthCodeFor(code, bw)
    ensures Leads(s, I.Config(I.BlockHeader, out, pos),
                  I.Config(LengthsState(isFinal, hlit, hdist, code, Unpack(codes, [])), out,
                           pos + 3 + |TablesText(hlit, hdist, n, bw, codes)|))
  {
    hide Leads, I.Step, CountsBits, OrderBits, CodesBits, At, I.Run, I.ValidState, OrderSlot, Underway, WidthsCoded,
         AllReadable, Unpack, Acceptable, SortedEntries, WidthCodeFor, LengthsState;
    UnderwayParts(hlit, hdist, n, bw, codes);
    var head, mid, last := CountsBits(hlit, hdist, n), OrderBits(bw, 0, n), CodesBits(bw, codes);
    AtSplit(s, pos, [isFinal, false, true], head + mid + last);
    AtSplit(s, pos + 3, head + mid, last);
    AtSplit(s, pos, [isFinal, false, true], head + mid);
    CountsLength(hlit, hdist, n);
    OrderRead(s, pos, out, isFinal, hlit, hdist, n, bw);
    var q := pos + 17 + |mid|;
    PlacedWhole(bw, n);
    code := TableDone(s, q, out, isFinal, hlit, hdist, n, bw);
    WidthCodePeek(code, bw);
    CodesLeads(s, q, out, isFinal, hlit, hdist, bw, code, codes, []);
    var a, b := I.Config(I.BlockHeader, out, pos), I.Config(Reading(isFinal, hlit, hdist, n, n, bw), out, q);
    LeadsOn(s, a, b, I.Config(LengthsState(isFinal, hlit, hdist, code, []), out, q));
    LeadsOn(s, a, I.Config(LengthsState(isFinal, hlit, hdist, code, []), out, q),
            I.Config(LengthsState(isFinal, hlit, hdist, code, Unpack(codes, [])), out, q + |last|));
  }

  /** The next code is read as what it stands for. */
  lemma {:induction false} CodeDecoded(bw: seq<nat>, code: Code, c: WidthCode, s: BitString, pos: nat)
    requires WidthCodeFor(code, bw) && |bw| == 19 && WidthsOk(SortedEntries(bw))
    requires c.code < 19 && bw[c.code] > 0 && c.extra < Pow2(c.extraBits)
    requires At(s, pos, SymbolBits(bw, AsSymbol(c))) && pos + |SymbolBits(bw, AsSymbol(c))| < |s|
    ensures Decode(code, s, pos) == Symbol(c.code, bw[c.code])
    ensures pos + bw[c.code] + c.extraBits < |s| && I.Field(s, pos + bw[c.code], c.extraBits) == c.extra
  {
    hide SortedEntries, Decode, I.Field, SymbolBits, At, Acceptable;
    WidthCodePeek(code, bw);
    SymbolRead(bw, code, AsSymbol(c), s, pos, 1);
  }

  /** A repeat with nothing before it. */
  lemma {:induction false} RepeatOfNothing(s: BitString, pos: nat, out: seq<byte>, isFinal: bool, hlit: nat, hdist: nat,
      n: nat, bw: seq<nat>, extra: nat)
    requires Front(s, pos, out) && Underway(hlit, hdist, n, bw, []) && bw[16] > 0 && extra < 4
    requires WidthsOk(SortedEntries(bw))
    requires var text := [isFinal, false, true] + TablesText(hlit, hdist, n, bw, []);
             At(s, pos, text + SymbolBits(bw, EncodedSymbol(16, 2, extra)))
             && pos + |text + SymbolBits(bw, EncodedSymbol(16, 2, extra))| < |s|
    ensures Refused(s, RepeatWithoutPrevious)
  {
    hide Front, Refused, Leads, I.Step, TablesText, At, I.Run, I.ValidState, Underway, SortedEntries, WidthCodeFor,
         Decode, I.Field, SymbolBits, OrderSlot;
    UnderwayParts(hlit, hdist, n, bw, []);
    Pow2Values();
    var text := [isFinal, false, true] + TablesText(hlit, hdist, n, bw, []);
    AtSplit(s, pos, text, SymbolBits(bw, EncodedSymbol(16, 2, extra)));
    var code := CodesRead(s, pos, out, isFinal, hlit, hdist, n, bw, []);
    var p := pos + |text|;
    CodeDecoded(bw, code, WidthCode(16, 2, extra), s, p);
    var c := I.Config(LengthsState(isFinal, hlit, hdist, code, []), out, p);
    LeadsWithin(s, I.Config(I.BlockHeader, out, pos), c);
    I.CodeLengthsCase(s, c);
    RefusedAt(s, pos, out, c, RepeatWithoutPrevious);
  }

  /** A run that goes beyond the widths counted. */
  lemma {:induction false} TooManyWidths(s: BitString, pos: nat, out: seq<byte>, isFinal: bool, hlit: nat, hdist: nat,
      n: nat, bw: seq<nat>, codes: seq<WidthCode>, next: WidthCode)
    requires Front(s, pos, out) && Underway(hlit, hdist, n, bw, codes) && WidthsOk(SortedEntries(bw))
    requires Readable(next, Unpack(codes, [])) && bw[next.code] > 0
    requires |Unpack(codes, [])| + |Piece(next, Unpack(codes, []))| > hlit + hdist
    requires var text := [isFinal, false, true] + TablesText(hlit, hdist, n, bw, codes);
             At(s, pos, text + SymbolBits(bw, AsSymbol(next))) && pos + |text + SymbolBits(bw, AsSymbol(next))| < |s|
    ensures Refused(s, TooManyCodeLengths)
  {
    hide Front, Refused, Leads, I.Step, TablesText, At, I.Run, I.ValidState, Underway, SortedEntries, WidthCodeFor,
         Decode, I.Field, SymbolBits, OrderSlot, Unpack, I.ReadLengthRun, Readable, Piece;
    UnderwayParts(hlit, hdist, n, bw, codes);
    ReadableCode(next, Unpack(codes, []));
    var text := [isFinal, false, true] + TablesText(hlit, hdist, n, bw, codes);
    AtSplit(s, pos, text, SymbolBits(bw, AsSymbol(next)));
    var code := CodesRead(s, pos, out, isFinal, hlit, hdist, n, bw, codes);
    var p := pos + |text|;
    RunReadOf(bw, code, next, Unpack(codes, []), s, p);
    var c := I.Config(LengthsState(isFinal, hlit, hdist, code, Unpack(codes, [])), out, p);
    LeadsWithin(s, I.Config(I.BlockHeader, out, pos), c);
    I.CodeLengthsCase(s, c);
    RefusedAt(s, pos, out, c, TooManyCodeLengths);
  }

  lemma {:induction false} ReadableCode(c: WidthCode, sofar: seq<nat>)
    requires Readable(c, sofar)
    ensures c.code < 19
  {}

  lemma {:induction false} RunReadOf(bw: seq<nat>, code: Code, c: WidthCode, sofar: seq<nat>, s: BitString, pos: nat)
    requires WidthCodeFor(code, bw) && |bw| == 19 && WidthsOk(SortedEntries(bw)) && Readable(c, sofar)
    requires bw[c.code] > 0 && At(s, pos, SymbolBits(bw, AsSymbol(c))) && pos + |SymbolBits(bw, AsSymbol(c))| < |s|
    ensures pos <= |s|
    ensures I.ReadLengthRun(code, sofar, s, pos) == I.LengthRun(Piece(c, sofar), pos + |SymbolBits(bw, AsSymbol(c))|)
  {
    hide SymbolBits, SortedEntries, I.ReadLengthRun, At, Acceptable, Piece, Readable;
    ReadableCode(c, sofar);
    WidthCodePeek(code, bw);
    RunRead(bw, code, c, sofar, s, pos);
  }

  // ----- Symbols -----

  /** A block up to some of its elements, with the end-of-block look-ahead behind them. */
  lemma {:induction false} ElementsRead(s: BitString, pos: nat, out: seq<byte>, isFinal: bool, t: Tables,
      es: seq<Element>)
    returns (st: I.State)
    requires TablesOk(t) && ElementsOk(LiteralLengths(t), DistanceLengths(t), es, out)
    requires Codes(LiteralLengths(t), DistanceLengths(t))
    requires var text := [isFinal, t.FixedTables?, t.DynamicTables?] + TablesBitsOf(t)
                         + ElementsText(LiteralLengths(t), DistanceLengths(t), es, out);
             At(s, pos, text) && pos + |text| + LiteralLengths(t)[END_OF_BLOCK] <= |s|
    ensures Looping(st, isFinal, LiteralLengths(t), DistanceLengths(t))
    ensures Leads(s, I.Config(I.BlockHeader, out, pos),
                  I.Config(st, PerformAll(LiteralLengths(t), DistanceLengths(t), es, out),
                           pos + 3 + |TablesBitsOf(t)|
                           + |ElementsText(LiteralLengths(t), DistanceLengths(t), es, out)|))
  {
    hide I.Run, I.ValidState, At, Leads, Looping, TablesOk, ElementsOk, ElementsText, PerformAll, TablesBitsOf,
         LiteralLengths, DistanceLengths, Word;
    var lit, dist := LiteralLengths(t), DistanceLengths(t);
    var head, text := [isFinal, t.FixedTables?, t.DynamicTables?] + TablesBitsOf(t), ElementsText(lit, dist, es, out);
    AtSplit(s, pos, head, text);
    st := TablesForward(s, pos, out, isFinal, t);
    ElementsLead(st, isFinal, lit, dist, s, pos + |head|, out, es);
    LeadsOn(s, I.Config(I.BlockHeader, out, pos), I.Config(st, out, pos + |head|),
            I.Config(st, PerformAll(lit, dist, es, out), pos + |head| + |text|));
  }

  /** A block up to some of its elements; what follows is in question. */
  ghost predicate UpTo(s: BitString, pos: nat, out: seq<byte>, isFinal: bool, t: Tables, es: seq<Element>, p: nat) {
    TablesOk(t) && ElementsOk(LiteralLengths(t), DistanceLengths(t), es, out)
    && Codes(LiteralLengths(t), DistanceLengths(t)) &&
    var text := [isFinal, t.FixedTables?, t.DynamicTables?] + TablesBitsOf(t)
                + ElementsText(LiteralLengths(t), DistanceLengths(t), es, out);
    At(s, pos, text) && p == pos + |text| && p + LiteralLengths(t)[END_OF_BLOCK] <= |s|
  }

  /** The output made by those elements. */
  ghost function Made(t: Tables, es: seq<Element>, out: seq<byte>): seq<byte> {
    if ElementsOk(LiteralLengths(t), DistanceLengths(t), es, out)
    then PerformAll(LiteralLengths(t), DistanceLengths(t), es, out) else out
  }

  lemma {:induction false} LoopReached(s: BitString, pos: nat, out: seq<byte>, isFinal: bool, t: Tables,
      es: seq<Element>, p: nat)
    returns (st: I.State)
    requires UpTo(s, pos, out, isFinal, t, es, p)
    ensures Looping(st, isFinal, LiteralLengths(t), DistanceLengths(t)) && st.SymbolLoop?
    ensures Codes(LiteralLengths(t), DistanceLengths(t)) && p + LiteralLengths(t)[END_OF_BLOCK] <= |s|
    ensures st.literal.peek == LiteralLengths(t)[END_OF_BLOCK]
    ensures Leads(s, I.Config(I.BlockHeader, out, pos), I.Config(st, Made(t, es, out), p))
    ensures I.ValidConfig(s, I.Config(st, Made(t, es, out), p))
  {
    hide I.Run, I.ValidState, At, Leads, Looping, TablesOk, ElementsOk, ElementsText, PerformAll, TablesBitsOf,
         LiteralLengths, DistanceLengths, Acceptable;
    st := ElementsRead(s, pos, out, isFinal, t, es);
    LoopingPeeks(st, isFinal, LiteralLengths(t), DistanceLengths(t));
    LeadsWithin(s, I.Config(I.BlockHeader, out, pos), I.Config(st, Made(t, es, out), p));
  }

  /** Symbols 286 and 287 mean nothing, even if they have codewords. */
  lemma {:induction false} NoSuchSymbol(s: BitString, pos: nat, out: seq<byte>, isFinal: bool, t: Tables,
      es: seq<Element>, p: nat, symbol: nat)
    requires Front(s, pos, out) && UpTo(s, pos, out, isFinal, t, es, p)
    requires 286 <= symbol < |LiteralLengths(t)| && LiteralLengths(t)[symbol] > 0
    requires WidthsOk(SortedEntries(LiteralLengths(t))) && At(s, p, Word(LiteralLengths(t), symbol))
    ensures Refused(s, InvalidLiteralLengthSymbol)
  {
    hide Front, Refused, Leads, I.Step, At, I.Run, I.ValidState, UpTo, Looping, LiteralLengths, DistanceLengths, Made,
         Decode, SortedEntries, Word, Acceptable;
    var st := LoopReached(s, pos, out, isFinal, t, es, p);
    var c := I.Config(st, Made(t, es, out), p);
    LoopingPeeks(st, isFinal, LiteralLengths(t), DistanceLengths(t));
    DecodeInvertsEncode(LiteralLengths(t), st.literal, symbol, s, p);
    I.SymbolCase(s, c);
    RefusedAt(s, pos, out, c, InvalidLiteralLengthSymbol);
  }

  /** A copy from before the beginning of the output. */
  lemma {:induction false} TooFarBack(s: BitString, pos: nat, out: seq<byte>, isFinal: bool, t: Tables,
      es: seq<Element>, p: nat, l: EncodedSymbol, d: EncodedSymbol)
    requires Front(s, pos, out) && UpTo(s, pos, out, isFinal, t, es, p)
    requires 257 <= l.code <= 285 && SymbolOk(LiteralLengths(t), l, RowOfLength(l.code))
    requires d.code < 30 && SymbolOk(DistanceLengths(t), d, RowOfDistance(d.code))
    requires WidthsOk(SortedEntries(LiteralLengths(t))) && WidthsOk(SortedEntries(DistanceLengths(t)))
    requires CopyDistance(d) > |Made(t, es, out)|
    requires var text := SymbolBits(LiteralLengths(t), l) + SymbolBits(DistanceLengths(t), d);
             At(s, p, text) && p + |text| + LiteralLengths(t)[END_OF_BLOCK] <= |s|
    ensures Refused(s, TooLongBackReference)
  {
    hide Front, Refused, Leads, I.Step, At, I.Run, I.ValidState, UpTo, Looping, LiteralLengths, DistanceLengths, Made,
         SortedEntries, SymbolBits, CopyDistance, RowOfLength, RowOfDistance, I.StepSymbol, Acceptable, WidthsOk;
    var st := LoopReached(s, pos, out, isFinal, t, es, p);
    var c := I.Config(st, Made(t, es, out), p);
    I.SymbolCase(s, c);
    FarCopy(st, isFinal, LiteralLengths(t), DistanceLengths(t), s, p, Made(t, es, out), l, d);
    RefusedAt(s, pos, out, c, TooLongBackReference);
  }

  lemma {:induction false} FarCopy(st: I.State, isFinal: bool, lit: seq<nat>, dist: seq<nat>, s: BitString, pos: nat,
      out: seq<byte>, l: EncodedSymbol, d: EncodedSymbol)
    requires Looping(st, isFinal, lit, dist) && Codes(lit, dist) && pos <= |s|
    requires 257 <= l.code <= 285 && SymbolOk(lit, l, RowOfLength(l.code))
    requires d.code < 30 && SymbolOk(dist, d, RowOfDistance(d.code)) && CopyDistance(d) > |out|
    requires WidthsOk(SortedEntries(lit)) && WidthsOk(SortedEntries(dist))
    requires At(s, pos, SymbolBits(lit, l) + SymbolBits(dist, d))
    requires pos + |SymbolBits(lit, l) + SymbolBits(dist, d)| + lit[END_OF_BLOCK] <= |s|
    ensures st.SymbolLoop? && I.StepSymbol(s, st, out, pos) == I.Fail(TooLongBackReference)
  {
    hide Acceptable, Looping, At, Decode, Word, SortedEntries, I.LoopCodes, I.Field, CopyBytewise, I.ReadDistance,
         I.StepSymbol, SymbolBits, I.ValidState, WidthsOk, Pow2, CopyDistance, RowOfDistance;
    LoopingPeeks(st, isFinal, lit, dist);
    AtSplit(s, pos, SymbolBits(lit, l), SymbolBits(dist, d));
    SymbolRead(lit, st.literal, l, s, pos, lit[END_OF_BLOCK]);
    CopyDistanceRead(dist, st.distance, d, CopyLength(l), s, pos + |SymbolBits(lit, l)|, lit[END_OF_BLOCK]);
    FarStep(st, s, pos, out, l, lit[l.code], CopyLength(l), CopyDistance(d),
            pos + |SymbolBits(lit, l) + SymbolBits(dist, d)|);
  }

  lemma {:induction false} FarStep(st: I.State, s: BitString, pos: nat, out: seq<byte>, e: EncodedSymbol, width: nat,
      length: nat, distance: nat, end: nat)
    requires st.SymbolLoop? && pos <= |s| && Decode(st.literal, s, pos) == Symbol(e.code, width)
    requires 257 <= e.code <= 285 && pos + width + e.extraBits <= |s|
    requires RowOfLength(e.code).1 == e.extraBits && RowOfLength(e.code).0 + e.extra == length
    requires I.Field(s, pos + width, e.extraBits) == e.extra
    requires I.ReadDistance(st.distance, length, s, pos + width + e.extraBits) == I.Pointer(length, distance, end)
    requires distance > |out|
    ensures I.StepSymbol(s, st, out, pos) == I.Fail(TooLongBackReference)
  {
    hide Decode, I.Field, I.ReadDistance, CopyBytewise;
  }

  /** With 15 bits in sight, decoding never waits. */
  lemma {:induction false} EnoughInSight(code: Code, p: nat, s: BitString, pos: nat)
    requires pos + MAX_BITS <= |s| && 1 <= p <= MAX_BITS
    ensures PeekDecode(code, p, s, pos) != NeedBits
    decreases MAX_BITS - p
  {
    hide Pos, Find, Start, Pow2;
    var x := Pos(s[pos..pos + p]);
    if x < Total(code.entries) {
      var e := code.entries[Find(code.entries, x, |code.entries|)];
      if e.width > p { EnoughInSight(code, e.width, s, pos); }
    }
  }

  /** No codeword of these lengths stands at `pos`. */
  ghost predicate NoWord(lengths: seq<nat>, s: BitString, pos: nat) {
    WidthsOk(SortedEntries(lengths))
    && forall symbol :: 0 <= symbol < |lengths| && lengths[symbol] > 0 ==> !At(s, pos, Word(lengths, symbol))
  }

  lemma {:induction false} NoWordIsBad(lengths: seq<nat>, code: Code, s: BitString, pos: nat)
    requires Acceptable(lengths) && code.entries == SortedEntries(lengths) && NoWord(lengths, s, pos)
    requires pos + MAX_BITS <= |s|
    ensures Decode(code, s, pos) == BadCode
  {
    hide Acceptable, At, SortedEntries, PeekDecode, Word;
    EnoughInSight(code, code.peek, s, pos);
    if Decode(code, s, pos).Symbol? {
      WordBack(lengths, code, s, pos);
    }
  }

  /** Where a literal/length symbol is due there must be a codeword. */
  lemma {:induction false} NoLiteralCodeword(s: BitString, pos: nat, out: seq<byte>, isFinal: bool, t: Tables,
      es: seq<Element>, p: nat)
    requires Front(s, pos, out) && UpTo(s, pos, out, isFinal, t, es, p) && p + MAX_BITS <= |s|
    requires NoWord(LiteralLengths(t), s, p)
    ensures Refused(s, InvalidCode)
  {
    hide Front, Refused, Leads, I.Step, At, I.Run, I.ValidState, UpTo, Looping, LiteralLengths, DistanceLengths, Made,
         Decode, SortedEntries, Acceptable, NoWord;
    var st := LoopReached(s, pos, out, isFinal, t, es, p);
    var c := I.Config(st, Made(t, es, out), p);
    LoopingPeeks(st, isFinal, LiteralLengths(t), DistanceLengths(t));
    NoWordIsBad(LiteralLengths(t), st.literal, s, p);
    I.SymbolCase(s, c);
    RefusedAt(s, pos, out, c, InvalidCode);
  }

  /** Where a distance symbol is due there must be a codeword; 30 and 31 never have one. */
  lemma {:induction false} NoDistanceCodeword(s: BitString, pos: nat, out: seq<byte>, isFinal: bool, t: Tables,
      es: seq<Element>, p: nat, l: EncodedSymbol)
    requires Front(s, pos, out) && UpTo(s, pos, out, isFinal, t, es, p)
    requires 257 <= l.code <= 285 && SymbolOk(LiteralLengths(t), l, RowOfLength(l.code))
    requires WidthsOk(SortedEntries(LiteralLengths(t))) && At(s, p, SymbolBits(LiteralLengths(t), l))
    requires p + |SymbolBits(LiteralLengths(t), l)| + MAX_BITS <= |s|
    requires NoWord(DistanceLengths(t), s, p + |SymbolBits(LiteralLengths(t), l)|)
    ensures |DistanceLengths(t)| <= 30 && Refused(s, InvalidCode)
  {
    hide Front, Refused, Leads, I.Step, At, I.Run, I.ValidState, UpTo, Looping, LiteralLengths, DistanceLengths, Made,
         SortedEntries, SymbolBits, RowOfLength, I.StepSymbol, Acceptable, WidthsOk, NoWord, Decode;
    var st := LoopReached(s, pos, out, isFinal, t, es, p);
    var c, lit := I.Config(st, Made(t, es, out), p), LiteralLengths(t);
    LoopingPeeks(st, isFinal, lit, DistanceLengths(t));
    I.SymbolCase(s, c);
    PeekAtMost(lit, st.literal);
    SymbolRead(lit, st.literal, l, s, p, MAX_BITS);
    NoWordIsBad(DistanceLengths(t), st.distance, s, p + |SymbolBits(lit, l)|);
    BadDistanceStep(st, s, p, Made(t, es, out), l, lit[l.code]);
    FewDistances(s, pos, out, isFinal, t, es, p);
    RefusedAt(s, pos, out, c, InvalidCode);
  }

  lemma {:induction false} PeekAtMost(lengths: seq<nat>, code: Code)
    ensures code.peek <= MAX_BITS
  {}

  lemma {:induction false} FewDistances(s: BitString, pos: nat, out: seq<byte>, isFinal: bool, t: Tables,
      es: seq<Element>, p: nat)
    requires UpTo(s, pos, out, isFinal, t, es, p)
    ensures |DistanceLengths(t)| <= 30
  {
    hide At, ElementsOk, ElementsText, TablesBitsOf, Unpack, WidthsCoded, OrderSlot, Acceptable;
  }

  lemma {:induction false} BadDistanceStep(st: I.State, s: BitString, pos: nat, out: seq<byte>, e: EncodedSymbol,
      width: nat)
    requires st.SymbolLoop? && pos <= |s| && Decode(st.literal, s, pos) == Symbol(e.code, width)
    requires 257 <= e.code <= 285 && pos + width + e.extraBits <= |s| && RowOfLength(e.code).1 == e.extraBits
    requires Decode(st.distance, s, pos + width + e.extraBits) == BadCode
    ensures I.StepSymbol(s, st, out, pos) == I.Fail(InvalidCode)
  {
    hide Decode, I.Field, CopyBytewise;
  }
}
