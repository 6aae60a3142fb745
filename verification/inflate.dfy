/** The DEFLATE decoder as a state machine over a whole bit stream.

    A configuration is a state, the bytes produced so far and an absolute bit position.  `Step`
    decodes one element (a header, one code length, one symbol) and either moves on or reports that
    the stream ends too early for that element.  `Run` repeats it.  There is no buffer, no window
    and no feeding here: this is what the streaming decoder has to be equal to. */
module Inflate {
  import opened Bits
  import opened BitIo
  import opened Errors
  import opened Canonical
  import opened Huffman
  import opened Symbols
  import opened Window

  datatype State =
    | BlockHeader
    | StoredAlignAndLen(isFinal: bool)
    | StoredBody(remaining: nat, isFinal: bool)
    | DynamicHeader(isFinal: bool)
    | DynamicBitwidthTable(isFinal: bool, hlit: nat, hdist: nat, hclen: nat, orderIdx: nat, codeLengths: seq<nat>)
    | DynamicCodeLengths(isFinal: bool, hlit: nat, hdist: nat, bitwidthCode: Code, allCodeLengths: seq<nat>)
    | SymbolLoop(isFinal: bool, literal: Code, distance: Code)
    | Finished

  datatype Config = Config(state: State, out: seq<byte>, pos: nat)

  datatype Outcome = Next(config: Config) | NeedMore | Fail(error: Error) | Finish

  datatype Final = Stuck(config: Config) | Failed(error: Error) | Complete(config: Config)

  const Init := Config(BlockHeader, [], 0)

  ghost predicate SymbolsBelow(c: Code, n: nat) {
    forall i :: 0 <= i < |c.entries| ==> c.entries[i].symbol < n
  }

  ghost predicate ValidState(st: State) {
    match st
    case DynamicBitwidthTable(_, hlit, hdist, hclen, orderIdx, codeLengths) =>
      257 <= hlit <= 288 && 1 <= hdist <= 30 && orderIdx <= hclen <= 19 && |codeLengths| == 19
    case DynamicCodeLengths(_, hlit, hdist, bitwidthCode, all) =>
      257 <= hlit <= 288 && 1 <= hdist <= 30 && |all| <= hlit + hdist && bitwidthCode.peek == 1
    case SymbolLoop(_, literal, distance) => LoopCodes(literal, distance)
    case _ => true
  }

  /** What makes the symbol loop end byte-exactly: the literal look-ahead is the end-of-block width,
      and the distance look-ahead is no longer. */
  ghost predicate LoopCodes(literal: Code, distance: Code) {
    SymbolsBelow(literal, 288) && distance.peek <= literal.peek
    && (forall i :: 0 <= i < |literal.entries| && literal.entries[i].symbol == END_OF_BLOCK
          ==> literal.entries[i].width == literal.peek)
  }

  ghost predicate ValidConfig(s: BitString, c: Config) {
    c.pos <= |s| && ValidState(c.state)
  }

  /** Steps that consume nothing move to a state of lower rank. */
  ghost function Rank(st: State): nat {
    match st
    case DynamicBitwidthTable(_, _, _, _, _, _) => 3
    case DynamicCodeLengths(_, _, _, _, _) => 2
    case SymbolLoop(_, _, _) => 1
    case StoredBody(_, _) => 1
    case _ => 0
  }

  ghost predicate Advances(s: BitString, c: Config, o: Outcome) {
    o.Next? ==> ValidConfig(s, o.config)
                && (c.pos < o.config.pos || (c.pos == o.config.pos && Rank(o.config.state) < Rank(c.state)))
  }

  ghost function Field(s: BitString, pos: nat, n: nat): nat
    requires pos + n <= |s|
  {
    FromBits(s[pos..pos + n])
  }

  function Repeat(v: nat, n: nat): (r: seq<nat>)
    ensures |r| == n && forall i :: 0 <= i < n ==> r[i] == v
  {
    if n == 0 then [] else [v] + Repeat(v, n - 1)
  }

  // ----- One element at a time -----

  ghost function FixedLiteralCode(): Option<Code> {
    MakeCode(FixedLiteralLengths(), None, Some(END_OF_BLOCK))
  }

  ghost function FixedDistanceCode(): Option<Code> {
    MakeCode(FixedDistanceLengths(), Some(7), None)
  }

  ghost function StepBlockHeader(s: BitString, out: seq<byte>, pos: nat): (o: Outcome)
    requires pos <= |s|
  {
    if pos + 3 > |s| then NeedMore
    else
      var isFinal, kind := s[pos], Field(s, pos + 1, 2);
      if kind == 0 then Next(Config(StoredAlignAndLen(isFinal), out, pos + 3))
      else if kind == 1 then
        if FixedLiteralCode().None? || FixedDistanceCode().None? then Fail(BadCodeLengths)
        else Next(Config(SymbolLoop(isFinal, FixedLiteralCode().value, FixedDistanceCode().value), out, pos + 3))
      else if kind == 2 then Next(Config(DynamicHeader(isFinal), out, pos + 3))
      else Fail(ReservedBlockType)
  }

  ghost function StepStoredHeader(s: BitString, isFinal: bool, out: seq<byte>, pos: nat): (o: Outcome)
    requires pos <= |s|
  {
    var start := pos + PadTo8(pos);
    if start + 32 > |s| then NeedMore
    else
      var len, nlen := Field(s, start, 16), Field(s, start + 16, 16);
      if nlen != 0xFFFF - len then Fail(StoredLengthMismatch)
      else Next(Config(StoredBody(len, isFinal), out, start + 32))
  }

  ghost function ByteOf(s: BitString, pos: nat): (b: byte)
    requires pos + 8 <= |s|
  {
    Pow2Values();
    Field(s, pos, 8)
  }

  ghost function StepStoredBody(s: BitString, remaining: nat, isFinal: bool, out: seq<byte>, pos: nat): (o: Outcome)
    requires pos <= |s|
  {
    if remaining == 0 then Next(Config(if isFinal then Finished else BlockHeader, out, pos))
    else if pos + 8 > |s| then NeedMore
    else Next(Config(StoredBody(remaining - 1, isFinal), out + [ByteOf(s, pos)], pos + 8))
  }

  ghost function StepDynamicHeader(s: BitString, isFinal: bool, out: seq<byte>, pos: nat): (o: Outcome)
    requires pos <= |s|
  {
    if pos + 14 > |s| then NeedMore
    else
      var hlit, hdist, hclen := Field(s, pos, 5) + 257, Field(s, pos + 5, 5) + 1, Field(s, pos + 10, 4) + 4;
      if hdist > 30 then Fail(TooManyDistanceCodes)
      else Next(Config(DynamicBitwidthTable(isFinal, hlit, hdist, hclen, 0, Repeat(0, 19)), out, pos + 14))
  }

  ghost function StepBitwidth(s: BitString, st: State, out: seq<byte>, pos: nat): (o: Outcome)
    requires pos <= |s| && st.DynamicBitwidthTable? && ValidState(st)
  {
    if st.orderIdx == st.hclen then
      var code := MakeCode(st.codeLengths, Some(1), None);
      if code.None? then Fail(BadCodeLengths)
      else Next(Config(DynamicCodeLengths(st.isFinal, st.hlit, st.hdist, code.value, []), out, pos))
    else if pos + 3 > |s| then NeedMore
    else
      var lengths := st.codeLengths[OrderSlot(st.orderIdx) := Field(s, pos, 3)];
      Next(Config(st.(orderIdx := st.orderIdx + 1, codeLengths := lengths), out, pos + 3))
  }

  /** One run-length element of the code lengths: the lengths it stands for, and where it ends. */
  datatype LengthRun = LengthRun(lengths: seq<nat>, end: nat) | RunNeedsBits | RunError(error: Error)

  ghost function ReadLengthRun(code: Code, sofar: seq<nat>, s: BitString, pos: nat): (r: LengthRun)
    requires pos <= |s|
    ensures r.LengthRun? ==> pos < r.end <= |s|
  {
    match Decode(code, s, pos)
    case NeedBits => RunNeedsBits
    case BadCode => RunError(InvalidCode)
    case Symbol(symbol, width) =>
      var p := pos + width;
      if symbol <= 15 then LengthRun([symbol], p)
      else if symbol == 16 then
        if p + 2 > |s| then RunNeedsBits
        else if sofar == [] then RunError(RepeatWithoutPrevious)
        else LengthRun(Repeat(sofar[|sofar| - 1], Field(s, p, 2) + 3), p + 2)
      else if symbol == 17 then
        if p + 3 > |s| then RunNeedsBits else LengthRun(Repeat(0, Field(s, p, 3) + 3), p + 3)
      else if symbol == 18 then
        if p + 7 > |s| then RunNeedsBits else LengthRun(Repeat(0, Field(s, p, 7) + 11), p + 7)
      else RunError(InvalidCodeLengthSymbol)
  }

  ghost function StepCodeLengths(s: BitString, st: State, out: seq<byte>, pos: nat): (o: Outcome)
    requires pos <= |s| && st.DynamicCodeLengths? && ValidState(st)
  {
    var all := st.allCodeLengths;
    if |all| == st.hlit + st.hdist then EnterSymbolLoop(st, out, pos)
    else
      match ReadLengthRun(st.bitwidthCode, all, s, pos)
      case RunNeedsBits => NeedMore
      case RunError(e) => Fail(e)
      case LengthRun(more, end) =>
        if |all + more| > st.hlit + st.hdist then Fail(TooManyCodeLengths)
        else Next(Config(st.(allCodeLengths := all + more), out, end))
  }

  ghost function EnterSymbolLoop(st: State, out: seq<byte>, pos: nat): (o: Outcome)
    requires st.DynamicCodeLengths? && ValidState(st) && |st.allCodeLengths| == st.hlit + st.hdist
  {
    var literal := MakeCode(st.allCodeLengths[..st.hlit], None, Some(END_OF_BLOCK));
    if literal.None? then Fail(BadCodeLengths)
    else
      var distance := MakeCode(st.allCodeLengths[st.hlit..], Some(literal.value.peek), None);
      if distance.None? then Fail(BadCodeLengths)
      else Next(Config(SymbolLoop(st.isFinal, literal.value, distance.value), out, pos))
  }

  /** The rest of a pointer element, after its length symbol. */
  datatype Pointer = Pointer(length: nat, distance: nat, end: nat) | PointerNeedsBits | PointerError(error: Error)

  /** `row` is the length symbol's base and number of extra bits. */
  ghost function ReadPointer(code: Code, row: (nat, nat), s: BitString, pos: nat): (r: Pointer)
    requires pos <= |s|
    ensures r.Pointer? ==> pos < r.end <= |s|
  {
    if pos + row.1 > |s| then PointerNeedsBits
    else ReadDistance(code, row.0 + Field(s, pos, row.1), s, pos + row.1)
  }

  ghost function ReadDistance(code: Code, length: nat, s: BitString, pos: nat): (r: Pointer)
    requires pos <= |s|
    ensures r.Pointer? ==> pos < r.end <= |s|
  {
    match Decode(code, s, pos)
    case NeedBits => PointerNeedsBits
    case BadCode => PointerError(InvalidCode)
    case Symbol(symbol, width) =>
      if symbol >= 30 then PointerError(InvalidDistanceSymbol)
      else ReadDistanceExtra(length, DISTANCE_TABLE[symbol], s, pos + width)
  }

  ghost function ReadDistanceExtra(length: nat, row: (nat, nat), s: BitString, pos: nat): (r: Pointer)
    requires pos <= |s|
    ensures r.Pointer? ==> pos <= r.end <= |s|
  {
    if pos + row.1 > |s| then PointerNeedsBits
    else Pointer(length, row.0 + Field(s, pos, row.1), pos + row.1)
  }

  ghost function StepSymbol(s: BitString, st: State, out: seq<byte>, pos: nat): (o: Outcome)
    requires pos <= |s| && st.SymbolLoop?
  {
    match Decode(st.literal, s, pos)
    case NeedBits => NeedMore
    case BadCode => Fail(InvalidCode)
    case Symbol(symbol, width) =>
      if symbol <= 255 then Next(Config(st, out + [symbol], pos + width))
      else if symbol == END_OF_BLOCK then
        Next(Config(if st.isFinal then Finished else BlockHeader, out, pos + width))
      else if symbol <= 285 then
        match ReadPointer(st.distance, LENGTH_TABLE[symbol - 257], s, pos + width)
        case PointerNeedsBits => NeedMore
        case PointerError(e) => Fail(e)
        case Pointer(length, distance, end) =>
          if distance == 0 || distance > |out| then Fail(TooLongBackReference)
          else Next(Config(st, CopyBytewise(out, distance, length), end))
      else Fail(InvalidLiteralLengthSymbol)
  }

  ghost function Step(s: BitString, c: Config): (o: Outcome)
    requires ValidConfig(s, c)
  {
    match c.state
    case BlockHeader => StepBlockHeader(s, c.out, c.pos)
    case StoredAlignAndLen(isFinal) => StepStoredHeader(s, isFinal, c.out, c.pos)
    case StoredBody(remaining, isFinal) => StepStoredBody(s, remaining, isFinal, c.out, c.pos)
    case DynamicHeader(isFinal) => StepDynamicHeader(s, isFinal, c.out, c.pos)
    case DynamicBitwidthTable(_, _, _, _, _, _) => StepBitwidth(s, c.state, c.out, c.pos)
    case DynamicCodeLengths(_, _, _, _, _) => StepCodeLengths(s, c.state, c.out, c.pos)
    case SymbolLoop(_, _, _) => StepSymbol(s, c.state, c.out, c.pos)
    case Finished => Finish
  }

  lemma {:induction false} LoopCodesMade(lit: seq<nat>, dist: seq<nat>, peek: nat)
    requires |lit| <= 288 && Acceptable(lit) && Acceptable(dist)
    requires peek <= MakeCode(lit, None, Some(END_OF_BLOCK)).value.peek
    ensures LoopCodes(MakeCode(lit, None, Some(END_OF_BLOCK)).value, MakeCode(dist, Some(peek), None).value)
  {
    hide Acceptable, SafePeek;
    EntriesShape(lit);
    PeekAsAsked(dist, peek);
    PeekIsEobWidth(lit, None, END_OF_BLOCK);
  }

  /** The fixed codes exist, and the fixed end-of-block codeword has 7 bits. */
  lemma {:induction false} FixedCodes()
    ensures FixedLiteralCode().Some? && FixedDistanceCode().Some?
    ensures FixedLiteralCode().value.peek == 7 && LoopCodes(FixedLiteralCode().value, FixedDistanceCode().value)
  {
    FixedCodesOf(FixedLiteralLengths(), FixedDistanceLengths());
  }

  lemma {:induction false} FixedCodesOf(lit: seq<nat>, dist: seq<nat>)
    requires lit == FixedLiteralLengths() && dist == FixedDistanceLengths()
    ensures Acceptable(lit) && Acceptable(dist)
    ensures MakeCode(lit, None, Some(END_OF_BLOCK)).value.peek == 7
    ensures LoopCodes(MakeCode(lit, None, Some(END_OF_BLOCK)).value, MakeCode(dist, Some(7), None).value)
  {
    hide Acceptable, SafePeek, LoopCodes;
    FixedLiteralAccepted(lit);
    FixedDistanceAccepted(dist);
    EntriesShape(lit);
    PeekIsEobWidth(lit, None, END_OF_BLOCK);
    var i := IndexOf(lit, END_OF_BLOCK);
    LoopCodesMade(lit, dist, 7);
  }

  /** Some length is non-zero, none exceeds 15, and the Kraft sum is at most one. */
  ghost predicate MakesACode(lengths: seq<nat>) {
    (exists s :: 0 <= s < |lengths| && lengths[s] > 0)
    && (forall s :: 0 <= s < |lengths| ==> lengths[s] <= MAX_BITS)
    && Kraft(lengths, |lengths|) <= Pow2(MAX_BITS)
  }

  /** A dynamic block gets past its header exactly when both vectors of code lengths make a code. */
  lemma {:induction false} DynamicAcceptedIff(st: State, out: seq<byte>, pos: nat)
    requires st.DynamicCodeLengths? && ValidState(st) && |st.allCodeLengths| == st.hlit + st.hdist
    ensures EnterSymbolLoop(st, out, pos).Next? <==>
              MakesACode(st.allCodeLengths[..st.hlit]) && MakesACode(st.allCodeLengths[st.hlit..])
    ensures !EnterSymbolLoop(st, out, pos).Next? ==> EnterSymbolLoop(st, out, pos) == Fail(BadCodeLengths)
  {
    hide Acceptable, Kraft;
    AcceptableIff(st.allCodeLengths[..st.hlit]);
    AcceptableIff(st.allCodeLengths[st.hlit..]);
  }

  lemma {:induction false} BlockHeaderAdvances(s: BitString, out: seq<byte>, pos: nat)
    requires pos <= |s|
    ensures Advances(s, Config(BlockHeader, out, pos), StepBlockHeader(s, out, pos))
  {
    hide LoopCodes, Field, FixedLiteralCode, FixedDistanceCode;
    FixedCodes();
  }

  lemma {:induction false} BitwidthAdvances(s: BitString, st: State, out: seq<byte>, pos: nat)
    requires pos <= |s| && st.DynamicBitwidthTable? && ValidState(st)
    ensures Advances(s, Config(st, out, pos), StepBitwidth(s, st, out, pos))
  {
    hide MakeCode, Field, OrderSlot;
    if st.orderIdx == st.hclen && MakeCode(st.codeLengths, Some(1), None).Some? {
      PeekAsAsked(st.codeLengths, 1);
    }
  }

  lemma {:induction false} DynamicHeaderAdvances(s: BitString, isFinal: bool, out: seq<byte>, pos: nat)
    requires pos <= |s|
    ensures Advances(s, Config(DynamicHeader(isFinal), out, pos), StepDynamicHeader(s, isFinal, out, pos))
  {
    Pow2Values();
  }

  lemma {:induction false} CodeLengthsAdvances(s: BitString, st: State, out: seq<byte>, pos: nat)
    requires pos <= |s| && st.DynamicCodeLengths? && ValidState(st)
    ensures Advances(s, Config(st, out, pos), StepCodeLengths(s, st, out, pos))
  {
    hide MakeCode, LoopCodes, ReadLengthRun, Acceptable;
    var lit, dist := st.allCodeLengths[..Min(|st.allCodeLengths|, st.hlit)],
        st.allCodeLengths[Min(|st.allCodeLengths|, st.hlit)..];
    if |st.allCodeLengths| == st.hlit + st.hdist && Acceptable(lit) && Acceptable(dist) {
      LoopCodesMade(lit, dist, MakeCode(lit, None, Some(END_OF_BLOCK)).value.peek);
    }
  }

  lemma {:induction false} SymbolAdvances(s: BitString, st: State, out: seq<byte>, pos: nat)
    requires pos <= |s| && st.SymbolLoop? && ValidState(st)
    ensures Advances(s, Config(st, out, pos), StepSymbol(s, st, out, pos))
  {
    hide Decode, ReadPointer, CopyBytewise, LoopCodes;
  }

  lemma {:induction false} StepAdvances(s: BitString, c: Config)
    requires ValidConfig(s, c)
    ensures Advances(s, c, Step(s, c))
  {
    hide StepBlockHeader, StepDynamicHeader, StepBitwidth, StepCodeLengths, StepSymbol, LoopCodes, Field;
    match c.state
    case BlockHeader => BlockHeaderAdvances(s, c.out, c.pos);
    case DynamicBitwidthTable(_, _, _, _, _, _) => BitwidthAdvances(s, c.state, c.out, c.pos);
    case DynamicHeader(isFinal) => DynamicHeaderAdvances(s, isFinal, c.out, c.pos);
    case DynamicCodeLengths(_, _, _, _, _) => CodeLengthsAdvances(s, c.state, c.out, c.pos);
    case SymbolLoop(_, _, _) => SymbolAdvances(s, c.state, c.out, c.pos);
    case _ =>
  }

  ghost function Run(s: BitString, c: Config): Final
    requires ValidConfig(s, c)
    decreases |s| - c.pos, Rank(c.state)
  {
    StepAdvances(s, c);
    match Step(s, c)
    case Next(c') => Run(s, c')
    case NeedMore => Stuck(c)
    case Fail(e) => Failed(e)
    case Finish => Complete(c)
  }

  // ----- The step of each state -----

  lemma {:induction false} BlockHeaderCase(s: BitString, c: Config)
    requires ValidConfig(s, c) && c.state.BlockHeader?
    ensures Step(s, c) == StepBlockHeader(s, c.out, c.pos)
  {
    hide StepBlockHeader, ValidState, StepStoredHeader, StepStoredBody, StepDynamicHeader, StepBitwidth,
         StepCodeLengths, StepSymbol, LoopCodes;
  }

  lemma {:induction false} StoredHeaderCase(s: BitString, c: Config)
    requires ValidConfig(s, c) && c.state.StoredAlignAndLen?
    ensures Step(s, c) == StepStoredHeader(s, c.state.isFinal, c.out, c.pos)
  {
    hide StepStoredHeader, ValidState, StepBlockHeader, StepStoredBody, StepDynamicHeader, StepBitwidth,
         StepCodeLengths, StepSymbol, LoopCodes;
  }

  lemma {:induction false} StoredBodyCase(s: BitString, c: Config)
    requires ValidConfig(s, c) && c.state.StoredBody?
    ensures Step(s, c) == StepStoredBody(s, c.state.remaining, c.state.isFinal, c.out, c.pos)
  {
    hide StepStoredBody, ValidState, StepBlockHeader, StepStoredHeader, StepDynamicHeader, StepBitwidth,
         StepCodeLengths, StepSymbol, LoopCodes;
  }

  lemma {:induction false} DynamicHeaderCase(s: BitString, c: Config)
    requires ValidConfig(s, c) && c.state.DynamicHeader?
    ensures Step(s, c) == StepDynamicHeader(s, c.state.isFinal, c.out, c.pos)
  {
    hide StepDynamicHeader, ValidState, StepBlockHeader, StepStoredHeader, StepStoredBody, StepBitwidth,
         StepCodeLengths, StepSymbol, LoopCodes;
  }

  lemma {:induction false} BitwidthCase(s: BitString, c: Config)
    requires ValidConfig(s, c) && c.state.DynamicBitwidthTable?
    ensures Step(s, c) == StepBitwidth(s, c.state, c.out, c.pos)
  {
    hide StepBitwidth, StepBlockHeader, StepStoredHeader, StepStoredBody, StepDynamicHeader, StepCodeLengths,
         StepSymbol, LoopCodes;
  }

  lemma {:induction false} CodeLengthsCase(s: BitString, c: Config)
    requires ValidConfig(s, c) && c.state.DynamicCodeLengths?
    ensures Step(s, c) == StepCodeLengths(s, c.state, c.out, c.pos)
  {
    hide StepBitwidth, StepBlockHeader, StepStoredHeader, StepStoredBody, StepDynamicHeader, StepCodeLengths,
         StepSymbol, LoopCodes;
  }

  lemma {:induction false} SymbolCase(s: BitString, c: Config)
    requires ValidConfig(s, c) && c.state.SymbolLoop?
    ensures Step(s, c) == StepSymbol(s, c.state, c.out, c.pos)
  {
    hide StepSymbol, ValidState, StepBlockHeader, StepStoredHeader, StepStoredBody, StepDynamicHeader, StepBitwidth,
         StepCodeLengths, LoopCodes;
  }

  // ----- How a run goes on and ends -----

  lemma {:induction false} RunNext(s: BitString, c: Config, next: Config)
    requires ValidConfig(s, c) && Step(s, c) == Next(next)
    ensures ValidConfig(s, next) && Run(s, c) == Run(s, next)
  {
    hide Step, ValidState;
    StepAdvances(s, c);
  }

  lemma {:induction false} RunFails(s: BitString, c: Config, e: Error)
    requires ValidConfig(s, c) && Step(s, c) == Fail(e)
    ensures Run(s, c) == Failed(e)
  {
    hide Step, ValidState;
  }

  lemma {:induction false} RunSticks(s: BitString, c: Config)
    requires ValidConfig(s, c) && Step(s, c).NeedMore?
    ensures Run(s, c) == Stuck(c)
  {
    hide Step, ValidState;
  }

  lemma {:induction false} RunCompletes(s: BitString, c: Config)
    requires ValidConfig(s, c) && c.state == Finished
    ensures Run(s, c) == Complete(c)
  {
    hide ValidState, StepBlockHeader, StepStoredHeader, StepStoredBody, StepDynamicHeader, StepBitwidth,
         StepCodeLengths, StepSymbol;
  }

  // ----- More input -----

  lemma {:induction false} SameField(s: BitString, t: BitString, pos: nat, n: nat)
    requires s <= t && pos + n <= |s|
    ensures Field(s, pos, n) == Field(t, pos, n)
  {
    assert s[pos..pos + n] == t[pos..pos + n];
  }

  lemma {:induction false} DecodeStable(code: Code, s: BitString, t: BitString, pos: nat)
    requires pos <= |s| && s <= t && Decode(code, s, pos) != NeedBits
    ensures Decode(code, t, pos) == Decode(code, s, pos)
  {
    PeekStable(code, code.peek, s, t, pos);
  }

  lemma {:induction false} ReadPointerStable(code: Code, row: (nat, nat), s: BitString, t: BitString, pos: nat)
    requires s <= t && pos <= |s| && !ReadPointer(code, row, s, pos).PointerNeedsBits?
    ensures ReadPointer(code, row, t, pos) == ReadPointer(code, row, s, pos)
  {
    hide ReadDistance;
    hide FromBits;
    SameField(s, t, pos, row.1);
    ReadDistanceStable(code, row.0 + Field(s, pos, row.1), s, t, pos + row.1);
  }

  lemma {:induction false} ReadDistanceExtraStable(length: nat, row: (nat, nat), s: BitString, t: BitString, pos: nat)
    requires s <= t && pos <= |s| && !ReadDistanceExtra(length, row, s, pos).PointerNeedsBits?
    ensures ReadDistanceExtra(length, row, t, pos) == ReadDistanceExtra(length, row, s, pos)
  {
    SameField(s, t, pos, row.1);
  }

  lemma {:induction false} ReadDistanceStable(code: Code, length: nat, s: BitString, t: BitString, pos: nat)
    requires s <= t && pos <= |s| && !ReadDistance(code, length, s, pos).PointerNeedsBits?
    ensures ReadDistance(code, length, t, pos) == ReadDistance(code, length, s, pos)
  {
    hide Decode, ReadDistanceExtra;
    DecodeStable(code, s, t, pos);
    var d := Decode(code, s, pos);
    if d.Symbol? && d.symbol < 30 {
      ReadDistanceExtraStable(length, DISTANCE_TABLE[d.symbol], s, t, pos + d.width);
    }
  }

  lemma {:induction false} ReadLengthRunStable(code: Code, sofar: seq<nat>, s: BitString, t: BitString, pos: nat)
    requires s <= t && pos <= |s| && !ReadLengthRun(code, sofar, s, pos).RunNeedsBits?
    ensures ReadLengthRun(code, sofar, t, pos) == ReadLengthRun(code, sofar, s, pos)
  {
    hide Decode, Repeat, FromBits;
    DecodeStable(code, s, t, pos);
    var d := Decode(code, s, pos);
    if d.Symbol? {
      var p := pos + d.width;
      match d.symbol {
        case 16 => SameField(s, t, p, 2);
        case 17 => SameField(s, t, p, 3);
        case 18 => SameField(s, t, p, 7);
        case _ =>
      }
    }
  }

  lemma {:induction false} StoredHeaderStable(s: BitString, t: BitString, isFinal: bool, out: seq<byte>, pos: nat)
    requires pos <= |s| && s <= t && StepStoredHeader(s, isFinal, out, pos) != NeedMore
    ensures StepStoredHeader(t, isFinal, out, pos) == StepStoredHeader(s, isFinal, out, pos)
  {
    hide Field;
    SameField(s, t, pos + PadTo8(pos), 16);
    SameField(s, t, pos + PadTo8(pos) + 16, 16);
  }

  lemma {:induction false} BlockHeaderStable(s: BitString, t: BitString, out: seq<byte>, pos: nat)
    requires pos <= |s| && s <= t && StepBlockHeader(s, out, pos) != NeedMore
    ensures StepBlockHeader(t, out, pos) == StepBlockHeader(s, out, pos)
  {
    hide Field, FixedLiteralCode, FixedDistanceCode;
    SameField(s, t, pos + 1, 2);
  }

  lemma {:induction false} StoredBodyStable(s: BitString, t: BitString, remaining: nat, isFinal: bool,
      out: seq<byte>, pos: nat)
    requires pos <= |s| && s <= t && StepStoredBody(s, remaining, isFinal, out, pos) != NeedMore
    ensures StepStoredBody(t, remaining, isFinal, out, pos) == StepStoredBody(s, remaining, isFinal, out, pos)
  {
    hide Field;
    if remaining > 0 { SameField(s, t, pos, 8); }
  }

  lemma {:induction false} DynamicHeaderStable(s: BitString, t: BitString, isFinal: bool, out: seq<byte>, pos: nat)
    requires pos <= |s| && s <= t && StepDynamicHeader(s, isFinal, out, pos) != NeedMore
    ensures StepDynamicHeader(t, isFinal, out, pos) == StepDynamicHeader(s, isFinal, out, pos)
  {
    hide Field;
    SameField(s, t, pos, 5);
    SameField(s, t, pos + 5, 5);
    SameField(s, t, pos + 10, 4);
  }

  lemma {:induction false} BitwidthStable(s: BitString, t: BitString, st: State, out: seq<byte>, pos: nat)
    requires pos <= |s| && s <= t && st.DynamicBitwidthTable? && ValidState(st)
        && StepBitwidth(s, st, out, pos) != NeedMore
    ensures StepBitwidth(t, st, out, pos) == StepBitwidth(s, st, out, pos)
  {
    hide Field, MakeCode, OrderSlot;
    if st.orderIdx < st.hclen { SameField(s, t, pos, 3); }
  }

  lemma {:induction false} CodeLengthsStable(s: BitString, t: BitString, st: State, out: seq<byte>, pos: nat)
    requires pos <= |s| && s <= t && st.DynamicCodeLengths? && ValidState(st)
        && StepCodeLengths(s, st, out, pos) != NeedMore
    ensures StepCodeLengths(t, st, out, pos) == StepCodeLengths(s, st, out, pos)
  {
    hide ReadLengthRun, EnterSymbolLoop;
    if |st.allCodeLengths| < st.hlit + st.hdist {
      ReadLengthRunStable(st.bitwidthCode, st.allCodeLengths, s, t, pos);
    }
  }

  lemma {:induction false} SymbolStable(s: BitString, t: BitString, st: State, out: seq<byte>, pos: nat)
    requires pos <= |s| && st.SymbolLoop? && s <= t && StepSymbol(s, st, out, pos) != NeedMore
    ensures StepSymbol(t, st, out, pos) == StepSymbol(s, st, out, pos)
  {
    hide Decode, ReadPointer, CopyBytewise;
    DecodeStable(st.literal, s, t, pos);
    var d := Decode(st.literal, s, pos);
    if d.Symbol? && 257 <= d.symbol <= 285 {
      ReadPointerStable(st.distance, LENGTH_TABLE[d.symbol - 257], s, t, pos + d.width);
    }
  }

  /** An element that could be decoded is decoded the same way when more input follows. */
  lemma {:induction false} StepStable(s: BitString, t: BitString, c: Config)
    requires ValidConfig(s, c) && s <= t && Step(s, c) != NeedMore
    ensures Step(t, c) == Step(s, c)
  {
    hide StepBlockHeader, StepStoredHeader, StepStoredBody, StepDynamicHeader, StepBitwidth, StepCodeLengths,
         StepSymbol;
    match c.state
    case BlockHeader => BlockHeaderStable(s, t, c.out, c.pos);
    case StoredAlignAndLen(isFinal) => StoredHeaderStable(s, t, isFinal, c.out, c.pos);
    case StoredBody(remaining, isFinal) => StoredBodyStable(s, t, remaining, isFinal, c.out, c.pos);
    case DynamicHeader(isFinal) => DynamicHeaderStable(s, t, isFinal, c.out, c.pos);
    case DynamicBitwidthTable(_, _, _, _, _, _) => BitwidthStable(s, t, c.state, c.out, c.pos);
    case DynamicCodeLengths(_, _, _, _, _) => CodeLengthsStable(s, t, c.state, c.out, c.pos);
    case SymbolLoop(_, _, _) => SymbolStable(s, t, c.state, c.out, c.pos);
    case Finished =>
  }

  /** Carry on a run that got stuck, once the stream is `t`. */
  ghost function Resume(t: BitString, f: Final): Final
    requires f.Stuck? ==> ValidConfig(t, f.config)
  {
    if f.Stuck? then Run(t, f.config) else f
  }

  lemma {:induction false} OnlyFinishedFinishes(s: BitString, c: Config)
    requires ValidConfig(s, c) && Step(s, c).Finish?
    ensures c.state == Finished
  {
    hide Decode, ReadPointer, MakeCode, FromBits, ReadLengthRun, Field, CopyBytewise, LoopCodes, FixedLiteralCode,
         FixedDistanceCode, ByteOf, Repeat, PadTo8;
  }

  lemma {:induction false} RunValid(s: BitString, c: Config)
    requires ValidConfig(s, c)
    ensures Run(s, c).Stuck? ==> ValidConfig(s, Run(s, c).config)
    ensures Run(s, c).Complete? ==> ValidConfig(s, Run(s, c).config) && Run(s, c).config.state == Finished
    decreases |s| - c.pos, Rank(c.state)
  {
    hide Step, ValidState;
    StepAdvances(s, c);
    if Step(s, c).Next? {
      RunValid(s, Step(s, c).config);
    } else if Step(s, c).Finish? {
      OnlyFinishedFinishes(s, c);
    }
  }

  /** Splitting the input changes nothing: running on a prefix and resuming on the whole stream is
      running on the whole stream. */
  lemma {:induction false} RunExtends(s: BitString, t: BitString, c: Config)
    requires ValidConfig(s, c) && s <= t
    ensures Run(s, c).Stuck? ==> ValidConfig(t, Run(s, c).config)
    ensures Run(t, c) == Resume(t, Run(s, c))
    decreases |s| - c.pos, Rank(c.state)
  {
    RunValid(s, c);
    StepAdvances(s, c);
    if Step(s, c) != NeedMore {
      StepStable(s, t, c);
      if Step(s, c).Next? {
        RunExtends(s, t, Step(s, c).config);
      }
    }
  }

  /** Two configurations on the same run stay on the same run when the stream grows. */
  lemma {:induction false} SameRunExtends(s: BitString, t: BitString, a: Config, b: Config)
    requires ValidConfig(s, a) && ValidConfig(s, b) && s <= t && Run(s, a) == Run(s, b)
    ensures Run(t, a) == Run(t, b)
  {
    RunExtends(s, t, a);
    RunExtends(s, t, b);
  }

  // ----- No more input than that -----

  /** Where the symbol loop goes on, at least the end-of-block look-ahead must follow. */
  ghost function Ahead(st: State): nat {
    if st.SymbolLoop? then st.literal.peek else 0
  }

  /** A codeword that is all there is decoded, if the look-ahead is there too. */
  lemma {:induction false} DecodeWithin(code: Code, s: BitString, t: BitString, pos: nat)
    requires s <= t && pos + code.peek <= |s| && Decode(code, t, pos).Symbol?
    requires pos + Decode(code, t, pos).width <= |s|
    ensures Decode(code, s, pos) == Decode(code, t, pos)
  {
    hide Decode;
    var i := DecodeSound(code, t, pos);
    ShortPeekDecode(code, s, pos);
    assert Decode(code, s, pos) != NeedBits;
    DecodeStable(code, s, t, pos);
  }

  lemma {:induction false} DistanceWithin(code: Code, length: nat, s: BitString, t: BitString, pos: nat)
    requires s <= t && pos <= |t| && ReadDistance(code, length, t, pos).Pointer?
    requires ReadDistance(code, length, t, pos).end + code.peek <= |s|
    ensures pos <= |s| && ReadDistance(code, length, s, pos) == ReadDistance(code, length, t, pos)
  {
    hide Decode;
    DecodeWithin(code, s, t, pos);
    ReadDistanceStable(code, length, s, t, pos);
  }

  lemma {:induction false} PointerWithin(code: Code, row: (nat, nat), s: BitString, t: BitString, pos: nat)
    requires s <= t && pos <= |t| && ReadPointer(code, row, t, pos).Pointer?
    requires ReadPointer(code, row, t, pos).end + code.peek <= |s|
    ensures pos <= |s| && ReadPointer(code, row, s, pos) == ReadPointer(code, row, t, pos)
  {
    hide ReadDistance, FromBits;
    DistanceWithin(code, row.0 + Field(t, pos, row.1), s, t, pos + row.1);
    SameField(s, t, pos, row.1);
  }

  /** A symbol is read by the loop as soon as its bits, and the look-ahead behind them, are there; behind
      the end of the block nothing is needed. */
  lemma {:induction false} SymbolWithin(s: BitString, t: BitString, st: State, out: seq<byte>, pos: nat)
    requires s <= t && pos <= |t| && st.SymbolLoop? && ValidState(st) && StepSymbol(t, st, out, pos).Next?
    requires var c := StepSymbol(t, st, out, pos).config; c.pos + Ahead(c.state) <= |s|
    ensures pos + Ahead(st) <= StepSymbol(t, st, out, pos).config.pos + Ahead(StepSymbol(t, st, out, pos).config.state)
    ensures pos <= |s| && StepSymbol(s, st, out, pos) == StepSymbol(t, st, out, pos)
  {
    hide StepSymbol, Decode, ReadPointer, LoopCodes, CodeOk;
    NextSymbol(t, st, out, pos);
    var i := DecodeSound(st.literal, t, pos);
    DecodeWithin(st.literal, s, t, pos);
    if Decode(st.literal, t, pos).symbol > END_OF_BLOCK {
      PointerTakenWithin(s, t, st, out, pos);
    } else {
      OneSymbolWithin(s, t, st, out, pos);
    }
  }

  /** What the next step of the loop has read. */
  lemma {:induction false} NextSymbol(t: BitString, st: State, out: seq<byte>, pos: nat)
    requires pos <= |t| && st.SymbolLoop? && ValidState(st) && StepSymbol(t, st, out, pos).Next?
    ensures var d, c := Decode(st.literal, t, pos), StepSymbol(t, st, out, pos).config;
            d.Symbol? && pos + d.width <= c.pos && d.symbol <= 285
            && (if d.symbol == END_OF_BLOCK then !c.state.SymbolLoop? && c.pos == pos + d.width else c.state == st)
            && (d.symbol == END_OF_BLOCK ==> st.literal.peek <= d.width)
  {
    hide Decode, ReadPointer, CopyBytewise;
    var i := DecodeSound(st.literal, t, pos);
  }

  lemma {:induction false} OneSymbolWithin(s: BitString, t: BitString, st: State, out: seq<byte>, pos: nat)
    requires pos <= |s| <= |t| && st.SymbolLoop? && Decode(st.literal, s, pos) == Decode(st.literal, t, pos)
    requires Decode(st.literal, t, pos).Symbol? && Decode(st.literal, t, pos).symbol <= END_OF_BLOCK
    ensures StepSymbol(s, st, out, pos) == StepSymbol(t, st, out, pos)
  {
    hide Decode, ReadPointer, CopyBytewise;
  }

  lemma {:induction false} PointerTakenWithin(s: BitString, t: BitString, st: State, out: seq<byte>, pos: nat)
    requires s <= t && pos <= |s| && st.SymbolLoop? && ValidState(st) && StepSymbol(t, st, out, pos).Next?
    requires Decode(st.literal, s, pos) == Decode(st.literal, t, pos)
    requires Decode(st.literal, t, pos).Symbol? && END_OF_BLOCK < Decode(st.literal, t, pos).symbol <= 285
    requires StepSymbol(t, st, out, pos).config.pos + st.literal.peek <= |s|
    ensures StepSymbol(s, st, out, pos) == StepSymbol(t, st, out, pos)
  {
    hide Decode, ReadPointer, CopyBytewise;
    var d := Decode(st.literal, t, pos);
    PointerWithin(st.distance, LENGTH_TABLE[d.symbol - 257], s, t, pos + d.width);
  }

  lemma {:induction false} CodeLengthsWithin(s: BitString, t: BitString, st: State, out: seq<byte>, pos: nat)
    requires s <= t && pos <= |t| && st.DynamicCodeLengths? && ValidState(st) && StepCodeLengths(t, st, out, pos).Next?
    requires StepCodeLengths(t, st, out, pos).config.pos <= |s|
    ensures pos <= |s| && StepCodeLengths(s, st, out, pos) == StepCodeLengths(t, st, out, pos)
  {
    hide Decode, EnterSymbolLoop, Repeat, FromBits;
    if |st.allCodeLengths| < st.hlit + st.hdist {
      DecodeWithin(st.bitwidthCode, s, t, pos);
      CodeLengthsStable(s, t, st, out, pos);
    } else {
      EntryStays(st, out, pos);
    }
  }

  lemma {:induction false} EntryStays(st: State, out: seq<byte>, pos: nat)
    requires st.DynamicCodeLengths? && ValidState(st) && |st.allCodeLengths| == st.hlit + st.hdist
    ensures EnterSymbolLoop(st, out, pos).Next? ==> EnterSymbolLoop(st, out, pos).config.pos == pos
  {
    hide MakeCode;
  }

  /** A step is taken as soon as the bits up to where it leads, and the look-ahead there, are present. */
  lemma {:induction false} StepWithin(s: BitString, t: BitString, c: Config)
    requires s <= t && ValidConfig(t, c) && Step(t, c).Next?
    requires var next := Step(t, c).config; next.pos + Ahead(next.state) <= |s|
    ensures c.pos + Ahead(c.state) <= Step(t, c).config.pos + Ahead(Step(t, c).config.state)
    ensures ValidConfig(s, c) && Step(s, c) == Step(t, c)
  {
    hide StepBlockHeader, StepStoredHeader, StepStoredBody, StepDynamicHeader, StepBitwidth, StepCodeLengths,
         StepSymbol, LoopCodes;
    StepAdvances(t, c);
    match c.state
    case SymbolLoop(_, _, _) => SymbolWithin(s, t, c.state, c.out, c.pos);
    case DynamicCodeLengths(_, _, _, _, _) => CodeLengthsWithin(s, t, c.state, c.out, c.pos);
    case _ => PlainWithin(s, t, c);
  }

  lemma {:induction false} PlainWithin(s: BitString, t: BitString, c: Config)
    requires s <= t && ValidConfig(t, c) && Step(t, c).Next? && Step(t, c).config.pos <= |s| && c.pos <= |s|
    requires !c.state.SymbolLoop? && !c.state.DynamicCodeLengths?
    ensures Step(s, c) == Step(t, c)
  {
    hide FixedLiteralCode, FixedDistanceCode, MakeCode, Field, OrderSlot, Repeat, LoopCodes;
    if Step(s, c) != NeedMore {
      StepStable(s, t, c);
    }
  }

  /** A complete stream is complete as soon as its last bit is there: what stands behind it is not looked at. */
  lemma {:induction false} RunWithin(s: BitString, t: BitString, c: Config)
    requires s <= t && ValidConfig(t, c) && Run(t, c).Complete? && Run(t, c).config.pos <= |s|
    ensures c.pos + Ahead(c.state) <= Run(t, c).config.pos
    ensures ValidConfig(s, c) && Run(s, c) == Run(t, c)
    decreases |t| - c.pos, Rank(c.state)
  {
    hide Step, ValidState;
    StepAdvances(t, c);
    if Step(t, c).Next? {
      RunWithin(s, t, Step(t, c).config);
      StepWithin(s, t, c);
    } else {
      RunValid(t, c);
      OnlyFinishedFinishes(t, c);
      RunCompletes(s, c);
    }
  }
}
