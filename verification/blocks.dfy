/** DEFLATE blocks as bit strings (section 3.2.3 of RFC 1951; the `emit_*` functions of src/encode.rs),
    and what the abstract decoder makes of them.

    Every lemma here has the same form: if a piece of the stream is a given block, the run of the machine
    from the front of the piece is its run from behind it, with the block's bytes appended. */
module Blocks {
  import opened Bits
  import opened BitIo
  import opened Errors
  import opened Canonical
  import opened Huffman
  import opened Symbols
  import opened Window
  import opened Lz77
  import I = Inflate

  /** Running from `a` and running from `b` is the same. */
  ghost predicate Leads(s: BitString, a: I.Config, b: I.Config) {
    I.ValidConfig(s, a) && I.ValidConfig(s, b) && I.Run(s, a) == I.Run(s, b)
  }

  lemma {:induction false} StepLeads(s: BitString, a: I.Config, b: I.Config)
    requires I.ValidConfig(s, a) && I.Step(s, a) == I.Next(b)
    ensures Leads(s, a, b)
  {
    hide I.Run, I.Step, I.ValidState;
    I.RunNext(s, a, b);
  }

  lemma {:induction false} LeadsOn(s: BitString, a: I.Config, b: I.Config, c: I.Config)
    requires Leads(s, a, b) && Leads(s, b, c)
    ensures Leads(s, a, c)
  {
    hide I.Run, I.ValidState;
  }

  ghost function After(isFinal: bool): I.State {
    if isFinal then I.Finished else I.BlockHeader
  }

  lemma {:induction false} FieldAt(s: BitString, pos: nat, v: nat, w: nat)
    requires At(s, pos, ToBits(v, w)) && v < Pow2(w)
    ensures pos + w <= |s| && I.Field(s, pos, w) == v
  {
    FromToBits(v, w);
  }

  /** Where the three parts of a piece are. */
  lemma {:induction false} AtThree(s: BitString, pos: nat, a: BitString, b: BitString, c: BitString)
    requires At(s, pos, a + b + c)
    ensures At(s, pos, a) && At(s, pos + |a|, b) && At(s, pos + |a| + |b|, c)
  {
    AtSplit(s, pos, a + b, c);
    AtSplit(s, pos, a, b);
  }

  lemma {:induction false} AtBound(s: BitString, pos: nat, b: BitString)
    requires At(s, pos, b)
    ensures pos + |b| <= |s|
  {}

  lemma {:induction false} AtBit(s: BitString, pos: nat, b: bool)
    requires At(s, pos, [b])
    ensures pos < |s| && s[pos] == b
  {
    assert s[pos..pos + 1][0] == b;
  }

  // ----- Block headers -----

  ghost function HeaderBits(isFinal: bool, kind: nat): (b: BitString)
    ensures |b| == 3
  {
    [isFinal] + ToBits(kind, 2)
  }

  lemma {:induction false} HeaderAt(s: BitString, pos: nat, isFinal: bool, kind: nat)
    requires At(s, pos, HeaderBits(isFinal, kind)) && kind < 4
    ensures pos + 3 <= |s| && s[pos] == isFinal && I.Field(s, pos + 1, 2) == kind
  {
    hide I.Field;
    Pow2Values();
    AtSplit(s, pos, [isFinal], ToBits(kind, 2));
    AtBit(s, pos, isFinal);
    FieldAt(s, pos + 1, kind, 2);
  }

  // ----- Stored blocks -----

  ghost function StoredBlockBits(pos: nat, data: seq<byte>, isFinal: bool): (b: BitString)
    requires |data| <= MAX_STORED_BLOCK
  {
    HeaderBits(isFinal, 0) + ToBits(0, PadTo8(pos + 3))
        + (ToBits(|data|, 16) + ToBits(0xFFFF - |data|, 16) + BytesToBits(data))
  }

  /** A chunk as stored blocks of at most 65535 bytes; only the last one may be final. */
  ghost function StoredBits(pos: nat, chunk: seq<byte>, isFinal: bool): BitString
    decreases |chunk|
  {
    if |chunk| <= MAX_STORED_BLOCK then StoredBlockBits(pos, chunk, isFinal)
    else
      var b := StoredBlockBits(pos, chunk[..MAX_STORED_BLOCK], false);
      b + StoredBits(pos + |b|, chunk[MAX_STORED_BLOCK..], isFinal)
  }

  lemma {:induction false} BodyLeads(s: BitString, pos: nat, out: seq<byte>, data: seq<byte>, isFinal: bool)
    requires At(s, pos, BytesToBits(data))
    ensures Leads(s, I.Config(I.StoredBody(|data|, isFinal), out, pos),
                  I.Config(After(isFinal), out + data, pos + 8 * |data|))
    decreases |data|
  {
    hide Leads, I.ValidState, At;
    var a, end := I.Config(I.StoredBody(|data|, isFinal), out, pos),
        I.Config(After(isFinal), out + data, pos + 8 * |data|);
    if data == [] {
      AtBound(s, pos, BytesToBits(data));
      BodyEnds(s, pos, out, isFinal);
      assert out + data == out;
    } else {
      BodyByte(s, pos, data);
      BodyGoesOn(s, pos, out, |data|, data[0], isFinal);
      BodyLeads(s, pos + 8, out + [data[0]], data[1..], isFinal);
      assert out + data == out + [data[0]] + data[1..];
      LeadsOn(s, a, I.Config(I.StoredBody(|data| - 1, isFinal), out + [data[0]], pos + 8), end);
    }
  }

  lemma {:induction false} BodyEnds(s: BitString, pos: nat, out: seq<byte>, isFinal: bool)
    requires pos <= |s|
    ensures Leads(s, I.Config(I.StoredBody(0, isFinal), out, pos), I.Config(After(isFinal), out, pos))
  {
    hide I.Run, I.Step, Leads;
    I.StoredBodyCase(s, I.Config(I.StoredBody(0, isFinal), out, pos));
    StepLeads(s, I.Config(I.StoredBody(0, isFinal), out, pos), I.Config(After(isFinal), out, pos));
  }

  lemma {:induction false} BodyGoesOn(s: BitString, pos: nat, out: seq<byte>, n: nat, b: byte, isFinal: bool)
    requires n > 0 && pos + 8 <= |s| && I.ByteOf(s, pos) == b
    ensures Leads(s, I.Config(I.StoredBody(n, isFinal), out, pos),
                  I.Config(I.StoredBody(n - 1, isFinal), out + [b], pos + 8))
  {
    hide I.Run, I.Step, Leads, I.ByteOf, After, BytesToBits;
    I.StoredBodyCase(s, I.Config(I.StoredBody(n, isFinal), out, pos));
    StepLeads(s, I.Config(I.StoredBody(n, isFinal), out, pos),
              I.Config(I.StoredBody(n - 1, isFinal), out + [b], pos + 8));
  }

  lemma {:induction false} BodyByte(s: BitString, pos: nat, data: seq<byte>)
    requires At(s, pos, BytesToBits(data)) && data != []
    ensures pos + 8 <= |s| && I.ByteOf(s, pos) == data[0] && At(s, pos + 8, BytesToBits(data[1..]))
  {
    Pow2Values();
    AtSplit(s, pos, ToBits(data[0], 8), BytesToBits(data[1..]));
    FieldAt(s, pos, data[0], 8);
  }

  lemma {:induction false} StoredStart(s: BitString, pos: nat, out: seq<byte>, isFinal: bool)
    requires pos + 3 <= |s| && s[pos] == isFinal && I.Field(s, pos + 1, 2) == 0
    ensures Leads(s, I.Config(I.BlockHeader, out, pos), I.Config(I.StoredAlignAndLen(isFinal), out, pos + 3))
  {
    hide I.Run, I.Step, Leads, I.Field, I.FixedLiteralCode, I.FixedDistanceCode;
    I.BlockHeaderCase(s, I.Config(I.BlockHeader, out, pos));
    StepLeads(s, I.Config(I.BlockHeader, out, pos), I.Config(I.StoredAlignAndLen(isFinal), out, pos + 3));
  }

  lemma {:induction false} StoredLengths(s: BitString, pos: nat, out: seq<byte>, isFinal: bool, len: nat)
    requires len <= 0xFFFF && pos + PadTo8(pos) + 32 <= |s|
    requires I.Field(s, pos + PadTo8(pos), 16) == len && I.Field(s, pos + PadTo8(pos) + 16, 16) == 0xFFFF - len
    ensures Leads(s, I.Config(I.StoredAlignAndLen(isFinal), out, pos),
                  I.Config(I.StoredBody(len, isFinal), out, pos + PadTo8(pos) + 32))
  {
    hide I.Run, I.Step, Leads, I.Field, PadTo8;
    I.StoredHeaderCase(s, I.Config(I.StoredAlignAndLen(isFinal), out, pos));
    StepLeads(s, I.Config(I.StoredAlignAndLen(isFinal), out, pos),
              I.Config(I.StoredBody(len, isFinal), out, pos + PadTo8(pos) + 32));
  }

  lemma {:induction false} StoredBlockLeads(s: BitString, pos: nat, out: seq<byte>, data: seq<byte>, isFinal: bool)
    requires |data| <= MAX_STORED_BLOCK && At(s, pos, StoredBlockBits(pos, data, isFinal))
    ensures Leads(s, I.Config(I.BlockHeader, out, pos),
                  I.Config(After(isFinal), out + data, pos + |StoredBlockBits(pos, data, isFinal)|))
  {
    hide I.Run, I.Field, I.Step, I.ValidState, ToBits, BytesToBits, HeaderBits, At;
    var pad, body := ToBits(0, PadTo8(pos + 3)), ToBits(|data|, 16) + ToBits(0xFFFF - |data|, 16) + BytesToBits(data);
    AtThree(s, pos, HeaderBits(isFinal, 0), pad, body);
    HeaderAt(s, pos, isFinal, 0);
    var p := pos + 3;
    var start := p + PadTo8(p);
    AtThree(s, start, ToBits(|data|, 16), ToBits(0xFFFF - |data|, 16), BytesToBits(data));
    Pow2Values();
    FieldAt(s, start, |data|, 16);
    FieldAt(s, start + 16, 0xFFFF - |data|, 16);
    StoredStart(s, pos, out, isFinal);
    StoredLengths(s, p, out, isFinal, |data|);
    BodyLeads(s, start + 32, out, data, isFinal);
  }

  lemma {:induction false} StoredLeads(s: BitString, pos: nat, out: seq<byte>, chunk: seq<byte>, isFinal: bool)
    requires At(s, pos, StoredBits(pos, chunk, isFinal))
    ensures Leads(s, I.Config(I.BlockHeader, out, pos),
                  I.Config(After(isFinal), out + chunk, pos + |StoredBits(pos, chunk, isFinal)|))
    decreases |chunk|
  {
    hide I.Run, StoredBlockBits, At;
    if |chunk| <= MAX_STORED_BLOCK {
      StoredBlockLeads(s, pos, out, chunk, isFinal);
    } else {
      var first, rest := chunk[..MAX_STORED_BLOCK], chunk[MAX_STORED_BLOCK..];
      var b := StoredBlockBits(pos, first, false);
      AtSplit(s, pos, b, StoredBits(pos + |b|, rest, isFinal));
      StoredBlockLeads(s, pos, out, first, false);
      StoredLeads(s, pos + |b|, out + first, rest, isFinal);
      assert out + chunk == out + first + rest;
    }
  }

  // ----- Symbols -----

  /** Code lengths for both alphabets, with a codeword for end-of-block. */
  ghost predicate Lengths(lit: seq<nat>, dist: seq<nat>) {
    286 <= |lit| <= 288 && |dist| == 30 && lit[END_OF_BLOCK] > 0 && Acceptable(lit) && Acceptable(dist)
  }

  /** The token stays within what pointers can say. */
  predicate InRange(t: Token) {
    t.Pointer? ==> MIN_MATCH <= t.length <= MAX_MATCH && 1 <= t.distance <= WINDOW_SIZE
  }

  /** Every symbol the token needs has a codeword. */
  ghost predicate Coded(lit: seq<nat>, dist: seq<nat>, t: Token)
    requires 286 <= |lit| && |dist| == 30
  {
    InRange(t) &&
    match t
    case Literal(b) => lit[b] > 0
    case Pointer(length, distance) =>
      LengthRoundTrip(length);
      DistanceRoundTrip(distance);
      lit[LengthSymbol(length).code] > 0 && dist[DistanceSymbol(distance).code] > 0
  }

  ghost function SymbolBits(lengths: seq<nat>, e: EncodedSymbol): BitString
    requires WidthsOk(SortedEntries(lengths)) && e.code < |lengths|
  {
    Word(lengths, e.code) + ToBits(e.extra, e.extraBits)
  }

  ghost function TokenBits(lit: seq<nat>, dist: seq<nat>, t: Token): BitString
    requires Lengths(lit, dist) && InRange(t)
  {
    match t
    case Literal(b) => Word(lit, b)
    case Pointer(length, distance) =>
      LengthRoundTrip(length);
      DistanceRoundTrip(distance);
      SymbolBits(lit, LengthSymbol(length)) + SymbolBits(dist, DistanceSymbol(distance))
  }

  ghost predicate AllInRange(ts: seq<Token>) {
    forall i :: 0 <= i < |ts| ==> InRange(ts[i])
  }

  /** The tokens' symbols, then end-of-block. */
  ghost function TokensBits(lit: seq<nat>, dist: seq<nat>, ts: seq<Token>): BitString
    requires Lengths(lit, dist) && AllInRange(ts)
    decreases |ts|
  {
    if ts == [] then Word(lit, END_OF_BLOCK)
    else TokenBits(lit, dist, ts[0]) + TokensBits(lit, dist, ts[1..])
  }

  /** The machine is in the symbol loop with these codes. */
  ghost predicate InLoop(st: I.State, lit: seq<nat>, dist: seq<nat>) {
    Lengths(lit, dist) && st.SymbolLoop? && I.LoopCodes(st.literal, st.distance)
    && st.literal.entries == SortedEntries(lit) && st.distance.entries == SortedEntries(dist)
    && st.literal.peek == lit[END_OF_BLOCK]
  }

  lemma {:induction false} InLoopPeeks(st: I.State, lit: seq<nat>, dist: seq<nat>)
    requires InLoop(st, lit, dist)
    ensures st.SymbolLoop? && st.distance.peek <= st.literal.peek == lit[END_OF_BLOCK]
    ensures st.literal.entries == SortedEntries(lit) && st.distance.entries == SortedEntries(dist)
    ensures I.ValidState(st)
  {}

  lemma {:induction false} InLoopLengths(st: I.State, lit: seq<nat>, dist: seq<nat>)
    requires InLoop(st, lit, dist)
    ensures Lengths(lit, dist) && Acceptable(lit) && Acceptable(dist)
    ensures 286 <= |lit| <= 288 && |dist| == 30 && lit[END_OF_BLOCK] > 0
  {}

  lemma {:induction false} LengthsParts(lit: seq<nat>, dist: seq<nat>)
    requires Lengths(lit, dist)
    ensures Acceptable(lit) && Acceptable(dist) && 286 <= |lit| <= 288 && |dist| == 30 && lit[END_OF_BLOCK] > 0
  {}

  /** The symbol and its extra bits are at `pos`, with at least `more` bits behind them. */
  ghost predicate SymbolAt(lengths: seq<nat>, e: EncodedSymbol, s: BitString, pos: nat, more: nat)
    requires WidthsOk(SortedEntries(lengths))
  {
    e.code < |lengths| && lengths[e.code] > 0 && At(s, pos, SymbolBits(lengths, e))
    && pos + |SymbolBits(lengths, e)| + more <= |s|
  }

  /** The distance half of a pointer. */
  lemma {:induction false} DistanceRead(st: I.State, lit: seq<nat>, dist: seq<nat>, s: BitString, pos: nat,
      length: nat, distance: nat)
    requires InLoop(st, lit, dist) && 1 <= distance <= WINDOW_SIZE && WidthsOk(SortedEntries(dist))
    requires SymbolAt(dist, DistanceSymbol(distance), s, pos, lit[END_OF_BLOCK])
    ensures I.ReadDistance(st.distance, length, s, pos)
            == I.Pointer(length, distance, pos + |SymbolBits(dist, DistanceSymbol(distance))|)
  {
    hide Acceptable, InLoop, Decode, I.Field, DistanceSymbol, Lengths, SortedEntries, SymbolAt, SymbolBits;
    InLoopPeeks(st, lit, dist);
    InLoopLengths(st, lit, dist);
    DistanceRoundTrip(distance);
    SymbolRead(dist, st.distance, DistanceSymbol(distance), s, pos, lit[END_OF_BLOCK]);
  }

  /** A symbol that is at `pos` is decoded, and its extra bits follow. */
  lemma {:induction false} SymbolRead(lengths: seq<nat>, code: Code, e: EncodedSymbol, s: BitString, pos: nat,
      more: nat)
    requires Acceptable(lengths) && code.entries == SortedEntries(lengths) && code.peek <= more
    requires SymbolAt(lengths, e, s, pos, more) && e.extra < Pow2(e.extraBits)
    ensures e.code < |lengths| && Decode(code, s, pos) == Symbol(e.code, lengths[e.code])
    ensures pos + lengths[e.code] + e.extraBits + more <= |s|
    ensures I.Field(s, pos + lengths[e.code], e.extraBits) == e.extra
    ensures |SymbolBits(lengths, e)| == lengths[e.code] + e.extraBits
  {
    hide Acceptable, At, ToBits, Decode, Word, I.Field, SortedEntries;
    var word, extra := Word(lengths, e.code), ToBits(e.extra, e.extraBits);
    AtSplit(s, pos, word, extra);
    DecodeInvertsEncode(lengths, code, e.code, s, pos);
    FieldAt(s, pos + |word|, e.extra, e.extraBits);
  }

  /** One token's bits are one turn of the symbol loop. */
  lemma {:induction false} TokenLeads(st: I.State, lit: seq<nat>, dist: seq<nat>, s: BitString, pos: nat,
      out: seq<byte>, t: Token)
    requires InLoop(st, lit, dist) && Coded(lit, dist, t) && Usable(t, |out|)
    requires At(s, pos, TokenBits(lit, dist, t)) && pos + |TokenBits(lit, dist, t)| + lit[END_OF_BLOCK] <= |s|
    ensures Leads(s, I.Config(st, out, pos), I.Config(st, Apply(out, t), pos + |TokenBits(lit, dist, t)|))
  {
    hide Acceptable, InLoop, At, Word, Lengths, SortedEntries, I.Run, I.ValidState, SymbolBits, Leads, LengthSymbol,
         DistanceSymbol, CopyBytewise;
    match t
    case Literal(b) => LiteralLeads(st, lit, dist, s, pos, out, b);
    case Pointer(length, distance) => PointerLeads(st, lit, dist, s, pos, out, length, distance);
  }

  lemma {:induction false} LiteralLeads(st: I.State, lit: seq<nat>, dist: seq<nat>, s: BitString, pos: nat,
      out: seq<byte>, b: byte)
    requires InLoop(st, lit, dist) && lit[b] > 0
    requires At(s, pos, Word(lit, b)) && pos + |Word(lit, b)| + lit[END_OF_BLOCK] <= |s|
    ensures Leads(s, I.Config(st, out, pos), I.Config(st, out + [b], pos + |Word(lit, b)|))
  {
    hide Acceptable, InLoop, At, Decode, Word, Lengths, SortedEntries, I.Run, I.Step, Leads, I.LoopCodes;
    InLoopPeeks(st, lit, dist);
    InLoopLengths(st, lit, dist);
    DecodeInvertsEncode(lit, st.literal, b, s, pos);
    I.SymbolCase(s, I.Config(st, out, pos));
    StepLeads(s, I.Config(st, out, pos), I.Config(st, out + [b], pos + |Word(lit, b)|));
  }

  /** The machine's reading of a pointer, once its parts are known. */
  lemma {:induction false} PointerStep(st: I.State, s: BitString, pos: nat, out: seq<byte>, e: EncodedSymbol,
      width: nat,
                                       length: nat, distance: nat, end: nat)
    requires st.SymbolLoop? && pos <= |s| && Decode(st.literal, s, pos) == Symbol(e.code, width)
    requires 257 <= e.code <= 285 && pos + width + e.extraBits <= |s|
    requires LENGTH_TABLE[e.code - 257].1 == e.extraBits && LENGTH_TABLE[e.code - 257].0 + e.extra == length
    requires I.Field(s, pos + width, e.extraBits) == e.extra
    requires I.ReadDistance(st.distance, length, s, pos + width + e.extraBits) == I.Pointer(length, distance, end)
    requires 1 <= distance <= |out|
    ensures I.StepSymbol(s, st, out, pos) == I.Next(I.Config(st, CopyBytewise(out, distance, length), end))
  {
    hide Decode, I.Field, I.ReadDistance, CopyBytewise;
  }

  /** A pointer is a length symbol and a distance symbol, both with a codeword. */
  lemma {:induction false} PointerParts(lit: seq<nat>, dist: seq<nat>, length: nat, distance: nat)
    requires Lengths(lit, dist) && 286 <= |lit| && |dist| == 30 && Coded(lit, dist, Pointer(length, distance))
    ensures 3 <= length <= 258 && 1 <= distance <= WINDOW_SIZE
    ensures var e, d := LengthSymbol(length), DistanceSymbol(distance);
            e.code < |lit| && lit[e.code] > 0 && d.code < 30 && dist[d.code] > 0
            && TokenBits(lit, dist, Pointer(length, distance)) == SymbolBits(lit, e) + SymbolBits(dist, d)
  {
    hide Lengths, SymbolBits, LengthSymbol, DistanceSymbol;
    LengthRoundTrip(length);
    DistanceRoundTrip(distance);
  }

  /** The machine reads a pointer's bits as that pointer. */
  lemma {:induction false} PointerReads(st: I.State, lit: seq<nat>, dist: seq<nat>, s: BitString, pos: nat,
      out: seq<byte>, length: nat, distance: nat)
    requires InLoop(st, lit, dist) && Coded(lit, dist, Pointer(length, distance)) && distance <= |out| && pos <= |s|
    requires var bits := TokenBits(lit, dist, Pointer(length, distance));
             At(s, pos, bits) && pos + |bits| + lit[END_OF_BLOCK] <= |s|
    ensures st.SymbolLoop? && I.ValidState(st)
    ensures I.StepSymbol(s, st, out, pos)
            == I.Next(I.Config(st, CopyBytewise(out, distance, length),
                               pos + |TokenBits(lit, dist, Pointer(length, distance))|))
  {
    hide Acceptable, InLoop, At, Decode, Word, Lengths, SortedEntries, I.LoopCodes, I.Field, LengthSymbol,
         DistanceSymbol, CopyBytewise, I.ReadDistance, I.StepSymbol, SymbolBits, I.ValidState, TokenBits, Coded;
    InLoopPeeks(st, lit, dist);
    InLoopLengths(st, lit, dist);
    PointerParts(lit, dist, length, distance);
    LengthRoundTrip(length);
    DistanceRoundTrip(distance);
    var e, d := LengthSymbol(length), DistanceSymbol(distance);
    AtSplit(s, pos, SymbolBits(lit, e), SymbolBits(dist, d));
    SymbolRead(lit, st.literal, e, s, pos, lit[END_OF_BLOCK]);
    DistanceRead(st, lit, dist, s, pos + |SymbolBits(lit, e)|, length, distance);
    PointerStep(st, s, pos, out, e, lit[e.code], length, distance, pos + |SymbolBits(lit, e) + SymbolBits(dist, d)|);
  }

  lemma {:induction false} PointerLeads(st: I.State, lit: seq<nat>, dist: seq<nat>, s: BitString, pos: nat,
      out: seq<byte>, length: nat, distance: nat)
    requires InLoop(st, lit, dist) && Coded(lit, dist, Pointer(length, distance)) && distance <= |out|
    requires var bits := TokenBits(lit, dist, Pointer(length, distance));
             At(s, pos, bits) && pos + |bits| + lit[END_OF_BLOCK] <= |s|
    ensures Leads(s, I.Config(st, out, pos),
                  I.Config(st, CopyBytewise(out, distance, length),
                           pos + |TokenBits(lit, dist, Pointer(length, distance))|))
  {
    hide InLoop, I.Run, CopyBytewise, I.StepSymbol, I.ValidState, TokenBits, Leads, I.Step, LengthSymbol,
         DistanceSymbol;
    InLoopLengths(st, lit, dist);
    PointerReads(st, lit, dist, s, pos, out, length, distance);
    I.SymbolCase(s, I.Config(st, out, pos));
    StepLeads(s, I.Config(st, out, pos),
              I.Config(st, CopyBytewise(out, distance, length),
                       pos + |TokenBits(lit, dist, Pointer(length, distance))|));
  }

  ghost predicate AllCoded(lit: seq<nat>, dist: seq<nat>, ts: seq<Token>)
    requires 286 <= |lit| && |dist| == 30
  {
    forall i :: 0 <= i < |ts| ==> Coded(lit, dist, ts[i])
  }

  /** The end-of-block codeword leaves room for one look-ahead behind every token. */
  lemma {:induction false} TokensEnd(lit: seq<nat>, dist: seq<nat>, ts: seq<Token>)
    requires Lengths(lit, dist) && AllInRange(ts)
    ensures |TokensBits(lit, dist, ts)| >= lit[END_OF_BLOCK]
    decreases |ts|
  {
    hide TokenBits, Lengths;
    if ts != [] { TokensEnd(lit, dist, ts[1..]); }
  }

  lemma {:induction false} EndLeads(st: I.State, lit: seq<nat>, dist: seq<nat>, s: BitString, pos: nat, out: seq<byte>)
    requires InLoop(st, lit, dist) && At(s, pos, Word(lit, END_OF_BLOCK))
    ensures Leads(s, I.Config(st, out, pos), I.Config(After(st.isFinal), out, pos + |Word(lit, END_OF_BLOCK)|))
  {
    hide Acceptable, InLoop, Decode, Word, Lengths, SortedEntries, I.Run, I.Step, Leads, I.LoopCodes;
    InLoopPeeks(st, lit, dist);
    InLoopLengths(st, lit, dist);
    DecodeInvertsEncode(lit, st.literal, END_OF_BLOCK, s, pos);
    I.SymbolCase(s, I.Config(st, out, pos));
    StepLeads(s, I.Config(st, out, pos), I.Config(After(st.isFinal), out, pos + |Word(lit, END_OF_BLOCK)|));
  }

  /** The bits of a whole token sequence make the machine produce exactly what the tokens expand to. */
  lemma {:induction false} TokensLeads(st: I.State, lit: seq<nat>, dist: seq<nat>, s: BitString, pos: nat,
      out: seq<byte>, ts: seq<Token>)
    requires InLoop(st, lit, dist) && AllInRange(ts) && AllCoded(lit, dist, ts) && Sound(ts, |out|)
    requires At(s, pos, TokensBits(lit, dist, ts))
    ensures Leads(s, I.Config(st, out, pos),
                  I.Config(After(st.isFinal), Expand(ts, out), pos + |TokensBits(lit, dist, ts)|))
    decreases |ts|
  {
    hide InLoop, Word, Lengths, Leads, I.ValidState, At, TokenBits, TokensBits, Sound, Expand, Apply, AllCoded,
         AllInRange, Acceptable;
    InLoopPeeks(st, lit, dist);
    InLoopLengths(st, lit, dist);
    if ts == [] {
      NoTokens(out);
      NoTokensBits(lit, dist);
      EndLeads(st, lit, dist, s, pos, out);
    } else {
      var t, rest := ts[0], ts[1..];
      TokensHead(st, lit, dist, s, pos, out, ts);
      var mid := pos + |TokenBits(lit, dist, t)|;
      TokensLeads(st, lit, dist, s, mid, Apply(out, t), rest);
      LeadsOn(s, I.Config(st, out, pos), I.Config(st, Apply(out, t), mid),
              I.Config(After(st.isFinal), Expand(ts, out), pos + |TokensBits(lit, dist, ts)|));
    }
  }

  lemma {:induction false} NoTokensBits(lit: seq<nat>, dist: seq<nat>)
    requires Lengths(lit, dist)
    ensures AllInRange([]) && TokensBits(lit, dist, []) == Word(lit, END_OF_BLOCK)
  {
    hide Lengths, Word;
  }

  /** The first token's bits are read, and the others are behind them. */
  lemma {:induction false} TokensHead(st: I.State, lit: seq<nat>, dist: seq<nat>, s: BitString, pos: nat,
      out: seq<byte>, ts: seq<Token>)
    requires InLoop(st, lit, dist) && AllInRange(ts) && AllCoded(lit, dist, ts) && Sound(ts, |out|) && ts != []
    requires At(s, pos, TokensBits(lit, dist, ts))
    ensures AllInRange(ts[1..]) && InRange(ts[0]) && AllCoded(lit, dist, ts[1..])
    ensures Usable(ts[0], |out|) && Sound(ts[1..], |Apply(out, ts[0])|)
        && Expand(ts, out) == Expand(ts[1..], Apply(out, ts[0]))
    ensures var mid := pos + |TokenBits(lit, dist, ts[0])|;
            Leads(s, I.Config(st, out, pos), I.Config(st, Apply(out, ts[0]), mid))
                && At(s, mid, TokensBits(lit, dist, ts[1..]))
            && pos + |TokensBits(lit, dist, ts)| == mid + |TokensBits(lit, dist, ts[1..])|
  {
    hide InLoop, Word, Lengths, Leads, I.ValidState, At, TokenBits, TokensBits, Sound, Expand, Apply, AllCoded,
         AllInRange, Acceptable, Usable, TotalSize;
    InLoopPeeks(st, lit, dist);
    InLoopLengths(st, lit, dist);
    FirstToken(lit, dist, ts);
    ExpandHead(ts, out);
    SplitBits(lit, dist, s, pos, ts);
    TokenLeads(st, lit, dist, s, pos, out, ts[0]);
  }

  lemma {:induction false} ExpandHead(ts: seq<Token>, out: seq<byte>)
    requires Sound(ts, |out|) && ts != []
    ensures Usable(ts[0], |out|) && Sound(ts[1..], |Apply(out, ts[0])|)
        && Expand(ts, out) == Expand(ts[1..], Apply(out, ts[0]))
  {
    hide Sound, Expand, Apply, Usable, TotalSize;
    assert ts == [ts[0]] + ts[1..];
    ExpandFront(ts[0], ts[1..], out);
  }

  /** The first token's bits, and one look-ahead's worth behind them. */
  lemma {:induction false} SplitBits(lit: seq<nat>, dist: seq<nat>, s: BitString, pos: nat, ts: seq<Token>)
    requires Lengths(lit, dist) && AllInRange(ts) && ts != [] && At(s, pos, TokensBits(lit, dist, ts))
    ensures InRange(ts[0]) && AllInRange(ts[1..])
    ensures var bits, rest := TokenBits(lit, dist, ts[0]), TokensBits(lit, dist, ts[1..]);
            At(s, pos, bits) && At(s, pos + |bits|, rest) && |TokensBits(lit, dist, ts)| == |bits| + |rest|
            && pos + |bits| + lit[END_OF_BLOCK] <= |s|
  {
    hide Lengths, At, TokenBits, InRange;
    AtSplit(s, pos, TokenBits(lit, dist, ts[0]), TokensBits(lit, dist, ts[1..]));
    AtBound(s, pos + |TokenBits(lit, dist, ts[0])|, TokensBits(lit, dist, ts[1..]));
    TokensEnd(lit, dist, ts[1..]);
  }

  lemma {:induction false} FirstToken(lit: seq<nat>, dist: seq<nat>, ts: seq<Token>)
    requires 286 <= |lit| && |dist| == 30 && AllInRange(ts) && AllCoded(lit, dist, ts) && ts != []
    ensures ts == [ts[0]] + ts[1..] && Coded(lit, dist, ts[0]) && InRange(ts[0]) && AllInRange(ts[1..])
        && AllCoded(lit, dist, ts[1..])
  {
    hide Coded, InRange;
  }

  lemma {:induction false} NoTokens(out: seq<byte>)
    ensures Sound([], |out|) && Expand([], out) == out
  {}

  lemma {:induction false} SoundInRange(ts: seq<Token>, start: nat)
    requires Sound(ts, start)
    ensures AllInRange(ts)
  {
    if ts != [] { SoundInRange(ts[..|ts| - 1], start); }
  }

  /** Tokens made for a chunk on its own can follow anything. */
  lemma {:induction false} ChunkExpands(ts: seq<Token>, chunk: seq<byte>, out: seq<byte>)
    requires Sound(ts, 0) && Expand(ts, []) == chunk
    ensures Sound(ts, |out|) && Expand(ts, out) == out + chunk && AllInRange(ts)
  {
    hide Sound, Expand;
    ExpandAfter(ts, out, []);
    assert out + [] == out;
    SoundInRange(ts, 0);
  }

  // ----- Fixed blocks -----

  ghost function FixedBits(ts: seq<Token>, isFinal: bool): BitString
    requires AllInRange(ts)
  {
    FixedLengths();
    HeaderBits(isFinal, 1) + TokensBits(FixedLiteralLengths(), FixedDistanceLengths(), ts)
  }

  lemma {:induction false} FixedLengths()
    ensures Lengths(FixedLiteralLengths(), FixedDistanceLengths())
  {
    hide Lengths, FixedLiteralLengths, FixedDistanceLengths, Coded, InRange;
    FixedLengthsOf(FixedLiteralLengths(), FixedDistanceLengths());
  }

  lemma {:induction false} FixedLengthsOf(lit: seq<nat>, dist: seq<nat>)
    requires lit == FixedLiteralLengths() && dist == FixedDistanceLengths()
    ensures Lengths(lit, dist) && forall t :: InRange(t) ==> Coded(lit, dist, t)
    ensures lit[END_OF_BLOCK] == 7
  {
    hide Acceptable, LengthSymbol, DistanceSymbol;
    FixedLiteralAccepted(lit);
    FixedDistanceAccepted(dist);
    forall t | InRange(t) ensures Coded(lit, dist, t) {
      if t.Pointer? {
        LengthRoundTrip(t.length);
        DistanceRoundTrip(t.distance);
      }
    }
  }

  ghost function FixedLoop(isFinal: bool): I.State
  {
    I.FixedCodes();
    I.SymbolLoop(isFinal, I.FixedLiteralCode().value, I.FixedDistanceCode().value)
  }

  lemma {:induction false} FixedInLoop(isFinal: bool)
    ensures InLoop(FixedLoop(isFinal), FixedLiteralLengths(), FixedDistanceLengths())
  {
    hide Lengths, I.LoopCodes, FixedLiteralLengths, FixedDistanceLengths, MakeCode, SortedEntries, Coded, InRange;
    I.FixedCodes();
    var lit, dist := FixedLiteralLengths(), FixedDistanceLengths();
    FixedLengthsOf(lit, dist);
    EntriesMade(lit, None, Some(END_OF_BLOCK));
    EntriesMade(dist, Some(7), None);
  }

  lemma {:induction false} EntriesMade(lengths: seq<nat>, peek: Option<nat>, eob: Option<nat>)
    ensures MakeCode(lengths, peek, eob).Some? ==> MakeCode(lengths, peek, eob).value.entries == SortedEntries(lengths)
  {
    hide Acceptable, SafePeek;
  }

  /** From the block's front the machine comes to the symbol loop with the canonical codes of these lengths,
      and the tokens' symbols stand there. */
  ghost predicate Carries(s: BitString, pos: nat, out: seq<byte>, isFinal: bool, lit: seq<nat>, dist: seq<nat>,
                          ts: seq<Token>)
  {
    exists st: I.State, p: nat :: LoopAt(s, pos, out, st, p) && LoopWith(st, isFinal, lit, dist)
                                  && Lengths(lit, dist) && AllInRange(ts) && At(s, p, TokensBits(lit, dist, ts))
  }

  ghost predicate LoopAt(s: BitString, pos: nat, out: seq<byte>, st: I.State, p: nat) {
    Leads(s, I.Config(I.BlockHeader, out, pos), I.Config(st, out, p))
  }

  /** In the symbol loop, with the canonical codes of these lengths; an end-of-block codeword sets the look-ahead. */
  ghost predicate LoopWith(st: I.State, isFinal: bool, lit: seq<nat>, dist: seq<nat>) {
    st.SymbolLoop? && st.isFinal == isFinal
    && st.literal.entries == SortedEntries(lit) && st.distance.entries == SortedEntries(dist)
    && (|lit| > END_OF_BLOCK && lit[END_OF_BLOCK] > 0 ==> st.literal.peek == lit[END_OF_BLOCK])
  }

  lemma {:induction false} LoopWithIs(st: I.State, lit: seq<nat>, dist: seq<nat>)
    requires InLoop(st, lit, dist)
    ensures LoopWith(st, st.isFinal, lit, dist) && Lengths(lit, dist)
  {}

  lemma {:induction false} FixedStart(s: BitString, pos: nat, out: seq<byte>, isFinal: bool)
    requires At(s, pos, HeaderBits(isFinal, 1))
    ensures InLoop(FixedLoop(isFinal), FixedLiteralLengths(), FixedDistanceLengths())
    ensures LoopAt(s, pos, out, FixedLoop(isFinal), pos + 3)
  {
    hide InLoop, Lengths, I.Run, I.Step, I.Field, HeaderBits, I.FixedLiteralCode, I.FixedDistanceCode, At, Leads;
    HeaderAt(s, pos, isFinal, 1);
    I.FixedCodes();
    FixedInLoop(isFinal);
    I.BlockHeaderCase(s, I.Config(I.BlockHeader, out, pos));
    StepLeads(s, I.Config(I.BlockHeader, out, pos), I.Config(FixedLoop(isFinal), out, pos + 3));
  }

  lemma {:induction false} CarriesAt(s: BitString, pos: nat, out: seq<byte>, isFinal: bool, lit: seq<nat>,
      dist: seq<nat>, ts: seq<Token>, st: I.State, p: nat)
    requires LoopAt(s, pos, out, st, p) && LoopWith(st, isFinal, lit, dist)
    requires Lengths(lit, dist) && AllInRange(ts) && At(s, p, TokensBits(lit, dist, ts))
    ensures Carries(s, pos, out, isFinal, lit, dist, ts)
  {
    hide LoopAt, LoopWith, Lengths, AllInRange, At, TokensBits;
  }

  lemma {:induction false} FixedCarries(s: BitString, pos: nat, out: seq<byte>, ts: seq<Token>, isFinal: bool)
    requires AllInRange(ts) && At(s, pos, FixedBits(ts, isFinal))
    ensures Carries(s, pos, out, isFinal, FixedLiteralLengths(), FixedDistanceLengths(), ts)
  {
    hide InLoop, Lengths, I.Run, TokensBits, HeaderBits, At, LoopAt, LoopWith, FixedLiteralLengths,
         FixedDistanceLengths, InRange, AllInRange, Carries, FixedLoop;
    var lit, dist := FixedLiteralLengths(), FixedDistanceLengths();
    FixedLengths();
    AtSplit(s, pos, HeaderBits(isFinal, 1), TokensBits(lit, dist, ts));
    FixedStart(s, pos, out, isFinal);
    LoopWithIs(FixedLoop(isFinal), lit, dist);
    FixedFinal(isFinal);
    CarriesAt(s, pos, out, isFinal, lit, dist, ts, FixedLoop(isFinal), pos + 3);
  }

  lemma {:induction false} FixedFinal(isFinal: bool)
    ensures FixedLoop(isFinal).SymbolLoop? && FixedLoop(isFinal).isFinal == isFinal
  {}

  lemma {:induction false} FixedLeads(s: BitString, pos: nat, out: seq<byte>, ts: seq<Token>, chunk: seq<byte>,
      isFinal: bool)
    requires Sound(ts, 0) && Expand(ts, []) == chunk && AllInRange(ts) && At(s, pos, FixedBits(ts, isFinal))
    ensures Leads(s, I.Config(I.BlockHeader, out, pos),
                  I.Config(After(isFinal), out + chunk, pos + |FixedBits(ts, isFinal)|))
  {
    hide InLoop, Lengths, I.Run, Sound, Expand, I.Field, TokensBits, HeaderBits, I.FixedLiteralCode,
         I.FixedDistanceCode, At, InRange, Coded;
    var lit, dist := FixedLiteralLengths(), FixedDistanceLengths();
    FixedLengths();
    FixedLengthsOf(lit, dist);
    AtSplit(s, pos, HeaderBits(isFinal, 1), TokensBits(lit, dist, ts));
    FixedStart(s, pos, out, isFinal);
    FixedFinal(isFinal);
    ChunkExpands(ts, chunk, out);
    TokensLeads(FixedLoop(isFinal), lit, dist, s, pos + 3, out, ts);
  }
}
