/** The streaming encoder (src/encode.rs): every block it emits is the bit string of its tokens, and its
    state after any call is what `Sessions` says. */
module Encode {
  import opened Bits
  import opened BitIo
  import opened Errors
  import opened Canonical
  import opened Huffman
  import opened Symbols
  import opened Lz77
  import opened RunLengths
  import opened CodeLengths
  import opened Blocks
  import opened DynamicBlocks
  import opened Sessions
  import I = Inflate

  const COMPACT_THRESHOLD: nat := 1024 * 1024

  // ----- Symbols -----

  /** Write a symbol and its extra bits. */
  method WriteSymbol(w: BitWriter, e: HuffmanEncoder, symbol: EncodedSymbol, ghost lengths: seq<nat>)
    requires w.Valid() && Encodes(e, lengths) && symbol.code < |lengths|
    requires symbol.extraBits <= 13 && symbol.extra < Pow2(symbol.extraBits)
    modifies w
    ensures w.Valid() && w.Stream() == old(w.Stream()) + SymbolBits(lengths, symbol)
  {
    hide Encodes, ToBits, BytesToBits, SortedEntries, Word;
    EncodesParts(e, lengths);
    EncodeSymbol(e, w, symbol.code, lengths);
    ghost var before := w.Stream();
    assert before == old(w.Stream()) + Word(lengths, symbol.code);
    NoBits(symbol.extra);
    if symbol.extraBits > 0 {
      w.WriteBits(symbol.extraBits, symbol.extra);
    }
    assert w.Stream() == before + ToBits(symbol.extra, symbol.extraBits);
    BitIo.Associative(old(w.Stream()), Word(lengths, symbol.code), ToBits(symbol.extra, symbol.extraBits));
  }

  lemma {:induction false} NoBits(v: nat)
    ensures ToBits(v, 0) == []
  {}

  lemma {:induction false} EncodesParts(e: HuffmanEncoder, lengths: seq<nat>)
    requires Encodes(e, lengths)
    ensures WidthsOk(SortedEntries(lengths)) && |e.codes| == |lengths|
    ensures forall i :: 0 <= i < |lengths| ==> e.CodeWidth(i) == lengths[i]
  {
    hide Word, SortedEntries, ToBits;
  }

  method WriteToken(w: BitWriter, t: Token, literal: HuffmanEncoder, distance: HuffmanEncoder, ghost lit: seq<nat>,
      ghost dist: seq<nat>)
    requires w.Valid() && Lengths(lit, dist) && Encodes(literal, lit) && Encodes(distance, dist) && InRange(t)
    modifies w
    ensures w.Valid() && w.Stream() == old(w.Stream()) + TokenBits(lit, dist, t)
  {
    hide Encodes, ToBits, BytesToBits, SortedEntries, Word, SymbolBits, Acceptable, Lengths, LengthSymbol,
         DistanceSymbol;
    LengthsParts(lit, dist);
    EncodesParts(literal, lit);
    EncodesParts(distance, dist);
    match t {
      case Literal(b) => EncodeSymbol(literal, w, b, lit);
      case Pointer(length, far) =>
        LengthRoundTrip(length);
        DistanceRoundTrip(far);
        var l := LengthToSymbol(length);
        WriteSymbol(w, literal, l, lit);
        var d := DistanceToSymbol(far);
        WriteSymbol(w, distance, d, dist);
        BitIo.Associative(old(w.Stream()), SymbolBits(lit, l), SymbolBits(dist, d));
    }
  }

  method WriteSymbols(w: BitWriter, symbols: seq<Token>, literal: HuffmanEncoder, distance: HuffmanEncoder,
                      ghost lit: seq<nat>, ghost dist: seq<nat>)
    requires w.Valid() && Lengths(lit, dist) && Encodes(literal, lit) && Encodes(distance, dist) && AllInRange(symbols)
    modifies w
    ensures w.Valid() && w.Stream() == old(w.Stream()) + TokensBits(lit, dist, symbols)
  {
    hide Encodes, ToBits, BytesToBits, SortedEntries, Word, TokenBits, Lengths, InRange;
    LengthsParts(lit, dist);
    assert symbols[0..] == symbols;
    for i := 0 to |symbols|
      invariant w.Valid()
          && w.Stream() + TokensBits(lit, dist, symbols[i..]) == old(w.Stream()) + TokensBits(lit, dist, symbols)
    {
      ghost var before := w.Stream();
      WriteToken(w, symbols[i], literal, distance, lit, dist);
      assert symbols[i..][1..] == symbols[i + 1..];
      BitIo.Associative(before, TokenBits(lit, dist, symbols[i]), TokensBits(lit, dist, symbols[i + 1..]));
    }
    EncodeSymbol(literal, w, END_OF_BLOCK, lit);
  }

  // ----- Fixed blocks -----

  method WriteHeader(w: BitWriter, isFinal: bool, kind: nat)
    requires w.Valid() && kind < 4
    modifies w
    ensures w.Valid() && w.Stream() == old(w.Stream()) + HeaderBits(isFinal, kind)
  {
    hide ToBits, BytesToBits;
    Pow2Values();
    w.WriteBit(isFinal);
    w.WriteBits(2, kind);
    BitIo.Associative(old(w.Stream()), [isFinal], ToBits(kind, 2));
  }

  lemma {:induction false} AcceptableTotal(lengths: seq<nat>)
    requires Acceptable(lengths)
    ensures WidthsOk(SortedEntries(lengths)) && Total(SortedEntries(lengths)) <= Pow2(MAX_BITS)
    ensures forall s :: 0 <= s < |lengths| ==> lengths[s] <= MAX_BITS
  {
    hide SortedEntries, Total, WidthsOk, Kraft;
    AcceptableIff(lengths);
  }

  /** An encoder for accepted lengths never fails to build. */
  method EncoderFor(lengths: seq<nat>) returns (e: HuffmanEncoder)
    requires Acceptable(lengths)
    ensures Encodes(e, lengths)
  {
    hide Acceptable, Encodes, SortedEntries, Total, WidthsOk;
    AcceptableTotal(lengths);
    var built := BuildEncoder(lengths);
    if built.Err? {
      assert false;
    }
    e := built.value;
  }

  method WriteFixedBlock(w: BitWriter, symbols: seq<Token>, isFinal: bool)
    requires w.Valid() && AllInRange(symbols)
    modifies w
    ensures w.Valid() && w.Stream() == old(w.Stream()) + FixedBits(symbols, isFinal)
  {
    hide Encodes, ToBits, BytesToBits, SortedEntries, TokensBits, Lengths, InRange, Acceptable, HeaderBits;
    var literalLengths := FixedLiteralCodeLengths();
    ghost var lit := FixedLiteralLengths();
    var dist := FixedDistanceLengths();
    FixedLengths();
    LengthsParts(lit, dist);
    var literal := EncoderFor(literalLengths[..]);
    var distance := EncoderFor(dist);
    WriteHeader(w, isFinal, 1);
    WriteSymbols(w, symbols, literal, distance, lit, dist);
    BitIo.Associative(old(w.Stream()), HeaderBits(isFinal, 1), TokensBits(lit, dist, symbols));
  }

  // ----- Dynamic blocks -----

  lemma {:induction false} NoCounts()
    ensures LiteralCounts([]) == I.Repeat(0, 286) && DistanceCounts([]) == I.Repeat(0, 30) && !HasPointer([])
  {}

  /** Count one token's symbols. */
  method CountToken(t: Token, literal: array<nat>, distance: array<nat>)
    requires InRange(t) && literal.Length == 286 && distance.Length == 30 && literal != distance
    modifies literal, distance
    ensures literal[..] == Bump(old(literal[..]), LiteralSymbol(t))
    ensures distance[..] == if t.Pointer? then Bump(old(distance[..]), DistanceCode(t)) else old(distance[..])
  {
    hide LengthSymbol, DistanceSymbol;
    match t {
      case Literal(b) => literal[b] := literal[b] + 1;
      case Pointer(length, far) =>
        PointerSymbols(length, far);
        var l := LengthToSymbol(length);
        literal[l.code] := literal[l.code] + 1;
        var d := DistanceToSymbol(far);
        distance[d.code] := distance[d.code] + 1;
    }
  }

  method CountSymbols(symbols: seq<Token>) returns (literal: seq<nat>, distance: seq<nat>)
    requires AllInRange(symbols)
    ensures literal == LiteralFrequencies(symbols) && distance == DistanceFrequencies(symbols)
  {
    hide InRange, LiteralSymbol, DistanceCode, LiteralCounts, DistanceCounts, HasPointer, Bump;
    NoCounts();
    var literalFrequencies := new nat[286](_ => 0);
    var distanceFrequencies := new nat[30](_ => 0);
    var hasDistance := false;
    assert symbols[..0] == [];
    for i := 0 to |symbols|
      invariant literalFrequencies[..] == LiteralCounts(symbols[..i])
      invariant distanceFrequencies[..] == DistanceCounts(symbols[..i])
      invariant hasDistance == HasPointer(symbols[..i])
    {
      CountNext(symbols, i);
      CountToken(symbols[i], literalFrequencies, distanceFrequencies);
      hasDistance := hasDistance || symbols[i].Pointer?;
    }
    assert symbols[..|symbols|] == symbols;
    literalFrequencies[END_OF_BLOCK] := 1;
    if !hasDistance {
      distanceFrequencies[0] := 1;
    }
    literal, distance := literalFrequencies[..], distanceFrequencies[..];
  }

  lemma {:induction false} CountNext(symbols: seq<Token>, i: nat)
    requires AllInRange(symbols) && i < |symbols|
    ensures InRange(symbols[i])
    ensures LiteralCounts(symbols[..i + 1]) == Bump(LiteralCounts(symbols[..i]), LiteralSymbol(symbols[i]))
    ensures DistanceCounts(symbols[..i + 1])
            == if symbols[i].Pointer? then Bump(DistanceCounts(symbols[..i]),
                DistanceCode(symbols[i])) else DistanceCounts(symbols[..i])
    ensures HasPointer(symbols[..i + 1]) <==> HasPointer(symbols[..i]) || symbols[i].Pointer?
  {
    hide LiteralSymbol, DistanceCode;
    assert symbols[..i + 1][..i] == symbols[..i] && symbols[..i + 1][i] == symbols[i];
  }

  lemma {:induction false} PointerSymbols(length: nat, distance: nat)
    requires InRange(Pointer(length, distance))
    ensures MIN_MATCH <= length <= MAX_MATCH && 1 <= distance <= WINDOW_SIZE
    ensures LengthSymbol(length).code == LiteralSymbol(Pointer(length, distance)) < 286
    ensures DistanceSymbol(distance).code == DistanceCode(Pointer(length, distance)) < 30
  {}

  /** `used_max_symbol` */
  method UsedMaxSymbol(e: HuffmanEncoder, ghost lengths: seq<nat>) returns (r: Option<nat>)
    requires Encodes(e, lengths)
    ensures r == if UsedCount(lengths) == 0 then None else Some(UsedCount(lengths) - 1)
  {
    hide Encodes;
    EncodesParts(e, lengths);
    assert lengths[..|lengths|] == lengths;
    for n := |e.codes| downto 0
      invariant UsedCount(lengths[..n]) == UsedCount(lengths)
    {
      assert lengths[..n + 1][..n] == lengths[..n];
      if e.CodeWidth(n) > 0 {
        return Some(n);
      }
    }
    return None;
  }

  /** The last place in transmission order that is used, plus one; at least four. */
  method BitwidthCodeCount(e: HuffmanEncoder, ghost bw: seq<nat>) returns (n: nat)
    requires Encodes(e, bw) && |bw| == 19
    ensures n == WidthCount(bw)
  {
    hide Encodes;
    EncodesParts(e, bw);
    var count: nat := 19;
    while count > 0 && e.CodeWidth(OrderSlot(count - 1)) == 0
      invariant count <= 19 && OrderCount(bw, count) == OrderCount(bw, 19)
    {
      count := count - 1;
    }
    n := Max(4, count);
  }

  method CountWidths(codes: seq<WidthCode>) returns (frequencies: seq<nat>)
    requires forall i :: 0 <= i < |codes| ==> codes[i].code < 19
    ensures frequencies == WidthCounts(codes)
  {
    var counts := new nat[19](_ => 0);
    assert codes[..0] == [];
    for i := 0 to |codes|
      invariant counts[..] == WidthCounts(codes[..i])
    {
      assert codes[..i + 1][..i] == codes[..i];
      counts[codes[i].code] := counts[codes[i].code] + 1;
    }
    assert codes[..|codes|] == codes;
    frequencies := counts[..];
  }

  method WriteOrder(w: BitWriter, e: HuffmanEncoder, n: nat, ghost bw: seq<nat>)
    requires w.Valid() && Encodes(e, bw) && |bw| == 19 && n <= 19 && forall j :: 0 <= j < 19 ==> bw[j] <= 7
    modifies w
    ensures w.Valid() && w.Stream() == old(w.Stream()) + OrderBits(bw, 0, n)
  {
    hide Encodes, ToBits, BytesToBits, OrderSlot;
    EncodesParts(e, bw);
    Pow2Values();
    for i := 0 to n
      invariant w.Valid() && w.Stream() + OrderBits(bw, i, n) == old(w.Stream()) + OrderBits(bw, 0, n)
    {
      ghost var before := w.Stream();
      w.WriteBits(3, e.CodeWidth(OrderSlot(i)));
      BitIo.Associative(before, ToBits(bw[OrderSlot(i)], 3), OrderBits(bw, i + 1, n));
    }
    BitIo.Associative(w.Stream(), [], []);
  }

  ghost predicate FitsFields(codes: seq<WidthCode>) {
    forall i :: 0 <= i < |codes| ==> codes[i].extraBits <= 7 && codes[i].extra < Pow2(codes[i].extraBits)
  }

  lemma {:induction false} ReadableFits(codes: seq<WidthCode>, sofar: seq<nat>)
    requires AllReadable(codes, sofar)
    ensures FitsFields(codes)
    decreases |codes|
  {
    if codes != [] {
      ReadableFits(codes[1..], sofar + Piece(codes[0], sofar));
      assert forall i :: 1 <= i < |codes| ==> codes[i] == codes[1..][i - 1];
    }
  }

  method WriteCodes(w: BitWriter, e: HuffmanEncoder, codes: seq<WidthCode>, ghost bw: seq<nat>)
    requires w.Valid() && Encodes(e, bw) && WidthsCoded(bw, codes) && FitsFields(codes)
    modifies w
    ensures w.Valid() && w.Stream() == old(w.Stream()) + CodesBits(bw, codes)
  {
    hide Encodes, ToBits, BytesToBits, SymbolBits, Acceptable, SortedEntries;
    EncodesParts(e, bw);
    assert codes[0..] == codes;
    for i := 0 to |codes|
      invariant WidthsCoded(bw, codes[i..])
      invariant w.Valid() && w.Stream() + CodesBits(bw, codes[i..]) == old(w.Stream()) + CodesBits(bw, codes)
    {
      ghost var before := w.Stream();
      var c := codes[i];
      WriteSymbol(w, e, EncodedSymbol(c.code, c.extraBits, c.extra), bw);
      assert codes[i..][1..] == codes[i + 1..];
      BitIo.Associative(before, SymbolBits(bw, AsSymbol(c)), CodesBits(bw, codes[i + 1..]));
    }
    BitIo.Associative(w.Stream(), [], []);
  }

  method WriteCounts(w: BitWriter, hlit: nat, hdist: nat, hclen: nat)
    requires w.Valid() && 257 <= hlit <= 286 && 1 <= hdist <= 30 && 4 <= hclen <= 19
    modifies w
    ensures w.Valid() && w.Stream() == old(w.Stream()) + CountsBits(hlit, hdist, hclen)
  {
    hide ToBits, BytesToBits;
    Pow2Values();
    w.WriteBits(5, hlit - 257);
    w.WriteBits(5, hdist - 1);
    w.WriteBits(4, hclen - 4);
    BitIo.Associative(old(w.Stream()), ToBits(hlit - 257, 5), ToBits(hdist - 1, 5));
    BitIo.Associative(old(w.Stream()), ToBits(hlit - 257, 5) + ToBits(hdist - 1, 5), ToBits(hclen - 4, 4));
  }

  lemma {:induction false} EncoderWidths(e: HuffmanEncoder, lengths: seq<nat>, n: nat)
    requires Encodes(e, lengths) && n <= |lengths|
    ensures WidthsTo(e, n) == lengths[..n]
  {
    hide Encodes, WidthsTo;
    EncodesParts(e, lengths);
  }

  /** The tables of a dynamic block: how many lengths are sent, and the lengths themselves. */
  method WriteTables(w: BitWriter, literal: HuffmanEncoder, distance: HuffmanEncoder, ghost lit: seq<nat>,
      ghost dist: seq<nat>)
    requires w.Valid() && |lit| == 286 && |dist| == 30 && Encodes(literal, lit) && Encodes(distance, dist)
        && Short(lit, dist)
    requires Describes(lit, dist, WidthLengthsFor(lit, dist))
    modifies w
    ensures w.Valid()
    ensures w.Stream() == old(w.Stream())
        + TablesBits(LiteralCount(lit), DistanceCount(dist), WidthLengthsFor(lit, dist),
                     WidthCodes(HeaderWidths(lit, dist)))
  {
    hide Encodes, ToBits, BytesToBits, Describes, WidthsCoded, OrderBits, CodesBits, CountsBits, WidthCodes,
         WidthsTo, UsedCount, OrderCount,
         WidthCounts, Acceptable, Lengths, Short, AllReadable, Unpack, FitsFields, LimitedLengths, WidthCount;
    ghost var bw := WidthLengthsFor(lit, dist);
    DescribesParts(lit, dist, bw);
    var lastLiteral := UsedMaxSymbol(literal, lit);
    var lastDistance := UsedMaxSymbol(distance, dist);
    var hlit := Max(257, GetOr(lastLiteral, 0) + 1);
    var hdist := Max(1, GetOr(lastDistance, 0) + 1);
    EncoderWidths(literal, lit, hlit);
    EncoderWidths(distance, dist, hdist);
    var codes := BuildBitwidthCodes(literal, hlit, distance, hdist);
    HeaderWidthsBack(lit, dist, bw);
    ReadableCodes(codes, []);
    ReadableFits(codes, []);
    var frequencies := CountWidths(codes);
    var lengths := LengthLimitedCodeLengths(frequencies, 7);
    var widths := EncoderFor(lengths);
    var hclen := BitwidthCodeCount(widths, bw);
    WriteCounts(w, hlit, hdist, hclen);
    WriteOrder(w, widths, hclen, bw);
    WriteCodes(w, widths, codes, bw);
    BitIo.Associative(old(w.Stream()), CountsBits(hlit, hdist, hclen), OrderBits(bw, 0, hclen));
    BitIo.Associative(old(w.Stream()), CountsBits(hlit, hdist, hclen) + OrderBits(bw, 0, hclen), CodesBits(bw, codes));
  }

  method WriteDynamicBlock(w: BitWriter, symbols: seq<Token>, isFinal: bool)
    requires w.Valid() && AllInRange(symbols)
    modifies w
    ensures w.Valid() && w.Stream() == old(w.Stream()) + DynamicBits(symbols, isFinal)
  {
    hide Encodes, ToBits, BytesToBits, Describes, TablesBits, TokensBits, HeaderBits, Acceptable, Lengths, Short,
         WidthLengthsFor,
         LiteralFrequencies, DistanceFrequencies, InRange, WidthCodes, AllCoded, HeaderWidths;
    ChosenDescribes(symbols);
    ghost var lit, dist := LiteralLengthsFor(symbols), DistanceLengthsFor(symbols);
    DescribesParts(lit, dist, WidthLengthsFor(lit, dist));
    LengthsParts(lit, dist);
    var literalFrequencies, distanceFrequencies := CountSymbols(symbols);
    var literalLengths := LengthLimitedCodeLengths(literalFrequencies, MAX_BITS);
    var distanceLengths := LengthLimitedCodeLengths(distanceFrequencies, MAX_BITS);
    var literal := EncoderFor(literalLengths);
    var distance := EncoderFor(distanceLengths);
    WriteHeader(w, isFinal, 2);
    WriteTables(w, literal, distance, lit, dist);
    WriteSymbols(w, symbols, literal, distance, lit, dist);
    ghost var tables := TablesBits(LiteralCount(lit), DistanceCount(dist), WidthLengthsFor(lit, dist),
        WidthCodes(HeaderWidths(lit, dist)));
    BitIo.Associative(old(w.Stream()), HeaderBits(isFinal, 2), tables);
    BitIo.Associative(old(w.Stream()), HeaderBits(isFinal, 2) + tables, TokensBits(lit, dist, symbols));
  }

  /** A fixed or dynamic block, padded if it is the last. */
  method WriteBlock(w: BitWriter, kind: BlockKind, symbols: seq<Token>, ghost chunk: seq<byte>, isFinal: bool,
      ghost pos: nat)
    requires w.Valid() && kind != Stored && TokensFor(symbols, chunk)
    modifies w
    ensures w.Valid() && (isFinal ==> w.bitCount == 0)
    ensures var all := old(w.Stream()) + BlockBits(kind, pos, symbols, chunk, isFinal);
            w.Stream() == if isFinal then all + ToBits(0, PadTo8(|all|)) else all
  {
    hide BytesToBits, ToBits, Sound, Expand, FixedBits, DynamicBits, InRange;
    SoundInRange(symbols, 0);
    if kind == Fixed {
      WriteFixedBlock(w, symbols, isFinal);
    } else {
      WriteDynamicBlock(w, symbols, isFinal);
    }
    if isFinal {
      w.AlignToByte();
    }
  }

  // ----- The encoder object -----

  /** The bits so far, with one more block; a final block is padded to a whole byte. */
  ghost function WithBlock(bits: BitString, kind: BlockKind, ts: seq<Token>, chunk: seq<byte>, isFinal: bool): BitString
    requires TokensFor(ts, chunk)
  {
    var all := bits + BlockBits(kind, |bits|, ts, chunk, isFinal);
    if isFinal then Padded(all) else all
  }

  /** Bytes before the writer's own make no difference to alignment. */
  lemma {:induction false} BehindBytes(sent: seq<byte>, output: seq<byte>, partial: BitString)
    ensures BytesToBits(sent + output) + partial == BytesToBits(sent) + (BytesToBits(output) + partial)
  {
    hide BytesToBits;
    BytesToBitsConcat(sent, output);
    BitIo.Associative(BytesToBits(sent), BytesToBits(output), partial);
  }

  lemma {:induction false} PaddedBehind(sent: seq<byte>, bits: BitString)
    ensures Padded(BytesToBits(sent) + bits) == BytesToBits(sent) + (bits + ToBits(0, PadTo8(|bits|)))
  {
    hide BytesToBits, ToBits;
    SamePad(|sent|, |bits|);
    BitIo.Associative(BytesToBits(sent), bits, ToBits(0, PadTo8(|bits|)));
  }

  lemma {:induction false} SamePad(bytes: nat, n: nat)
    ensures PadTo8(8 * bytes + n) == PadTo8(n)
  {}

  lemma {:induction false} WholeBytesPad(n: nat)
    requires n % 8 == 0
    ensures PadTo8(n) == 0
  {}

  /** Little-endian length and its complement. */
  lemma {:induction false} LengthBytes(len: nat)
    requires len <= 0xFFFF
    ensures BytesToBits([len % 256, len / 256, (0xFFFF - len) % 256, (0xFFFF - len) / 256]) == ToBits(len,
        16) + ToBits(0xFFFF - len, 16)
  {
    hide ToBits, BytesToBits;
    U16Bits(len);
    U16Bits(0xFFFF - len);
    BytesOfFour(len % 256, len / 256, (0xFFFF - len) % 256, (0xFFFF - len) / 256);
  }

  lemma {:induction false} U16Bits(v: nat)
    requires v <= 0xFFFF
    ensures ToBits(v, 16) == ToBits(v % 256, 8) + ToBits(v / 256, 8)
  {
    hide ToBits;
    Pow2Values();
    ToBitsConcat(v % 256, 8, v / 256, 8);
    assert v == v % 256 + 256 * (v / 256);
  }

  /** A stored block ends at a byte boundary. */
  lemma {:induction false} StoredWhole(pos: nat, chunk: seq<byte>, isFinal: bool)
    ensures (pos + |StoredBits(pos, chunk, isFinal)|) % 8 == 0
    decreases |chunk|
  {
    hide ToBits, BytesToBits;
    if |chunk| > MAX_STORED_BLOCK {
      var b := StoredBlockBits(pos, chunk[..MAX_STORED_BLOCK], false);
      StoredWhole(pos + |b|, chunk[MAX_STORED_BLOCK..], isFinal);
    }
  }

  lemma {:induction false} NothingEmitted()
    ensures BytesToBits([] + []) + [] == [] && Pow2(0) == 1
  {}

  class Encoder {
    const options: EncodeOptions
    var input: seq<byte>
    var output: seq<byte>
    var matcher: MatchFinder
    var drained: nat
    var finishing: bool
    var bitBuffer: nat
    var bitCount: nat

    /** Output already acknowledged and dropped. */
    ghost var sent: seq<byte>
    /** Everything fed. */
    ghost var fed: seq<byte>

    /** Every bit emitted so far. */
    ghost function Bits(): BitString
      reads this
    {
      BytesToBits(sent + output) + ToBits(bitBuffer, bitCount)
    }

    ghost function State(): EncState
      reads this
    {
      EncState(Bits(), input)
    }

    ghost predicate Ready()
      reads this, matcher
    {
      options.Ok() && matcher.Valid() && bitCount < 8 && bitBuffer < Pow2(bitCount) && drained <= |output|
    }

    /** The decoder would recover all but the pending input; once finished, all of it, from whole bytes. */
    ghost predicate Valid()
      reads this, matcher
    {
      Ready() &&
      if finishing then input == [] && bitCount == 0 && Closed(Bits(), fed) else Keeps(State(), fed)
    }

    constructor (options: EncodeOptions)
      requires options.Ok()
      ensures Valid() && fresh(matcher) && this.options == options
      ensures !finishing && fed == [] && sent == [] && output == [] && drained == 0 && State() == START
    {
      hide BytesToBits, ToBits, Keeps, Recovered, Pow2, Closed;
      this.options := options;
      input, output, drained, finishing, bitBuffer, bitCount := [], [], 0, false, 0, 0;
      matcher := new MatchFinder();
      sent, fed := [], [];
      new;
      NoBits(0);
      NothingEmitted();
      NothingKept();
    }

    // ----- Blocks -----

    /** Take over what a writer seeded with this encoder's bits has written. */
    method TakeOver(w: BitWriter)
      requires w.Valid()
      modifies this`output, this`bitBuffer, this`bitCount
      ensures output == w.output && bitCount == w.bitCount < 8 && bitBuffer == w.bitBuffer < Pow2(bitCount)
      ensures Bits() == BytesToBits(sent) + w.Stream()
    {
      output, bitBuffer, bitCount := w.output, w.bitBuffer, w.bitCount;
      BehindBytes(sent, output, ToBits(bitBuffer, bitCount));
    }

    method EmitHuffmanBlockChunk(chunk: seq<byte>, isFinal: bool) returns (ghost ts: seq<Token>)
      requires Ready() && options.kind != Stored
      modifies this`output, this`bitBuffer, this`bitCount, matcher
      ensures Ready() && TokensFor(ts, chunk) && (|chunk| < NIL ==> ts == Tokens(chunk))
      ensures Bits() == WithBlock(old(Bits()), options.kind, ts, chunk, isFinal)
      ensures (isFinal ==> bitCount == 0) && old(output) <= output
    {
      hide BytesToBits, ToBits, Sound, Expand, Tokens, WithBlock;
      var symbols := matcher.FillSymbols(chunk);
      ts := symbols;
      EmitTokens(symbols, chunk, isFinal);
    }

    /** Write a block of tokens. */
    method EmitTokens(symbols: seq<Token>, ghost chunk: seq<byte>, isFinal: bool)
      requires Ready() && options.kind != Stored && TokensFor(symbols, chunk)
      modifies this`output, this`bitBuffer, this`bitCount
      ensures Ready() && old(output) <= output && (isFinal ==> bitCount == 0)
      ensures Bits() == WithBlock(old(Bits()), options.kind, symbols, chunk, isFinal)
    {
      hide BytesToBits, ToBits, BlockBits, TokensFor;
      ghost var start := BytesToBits(output) + ToBits(bitBuffer, bitCount);
      BehindBytes(sent, output, ToBits(bitBuffer, bitCount));
      var w := new BitWriter(output, bitBuffer, bitCount);
      ghost var block := BlockBits(options.kind, |Bits()|, symbols, chunk, isFinal);
      WriteBlock(w, options.kind, symbols, chunk, isFinal, |Bits()|);
      PaddedBehind(sent, start + block);
      BitIo.Associative(BytesToBits(sent), start, block);
      WriterGrew(output, ToBits(bitBuffer, bitCount), w);
      TakeOver(w);
    }

    /** Header and padding of a stored block. */
    method StartStored(isFinal: bool)
      requires Ready()
      modifies this`output, this`bitBuffer, this`bitCount
      ensures Ready() && bitCount == 0 && bitBuffer == 0 && old(output) <= output
      ensures Bits() == old(Bits()) + HeaderBits(isFinal, 0) + ToBits(0, PadTo8(old(|Bits()|) + 3))
      ensures Bits() == BytesToBits(sent + output)
    {
      hide BytesToBits, ToBits, HeaderBits;
      ghost var start := BytesToBits(output) + ToBits(bitBuffer, bitCount);
      BehindBytes(sent, output, ToBits(bitBuffer, bitCount));
      var w := new BitWriter(output, bitBuffer, bitCount);
      WriteHeader(w, isFinal, 0);
      w.AlignToByte();
      PaddedBehind(sent, start + HeaderBits(isFinal, 0));
      BitIo.Associative(BytesToBits(sent), start, HeaderBits(isFinal, 0));
      WriterGrew(output, ToBits(bitBuffer, bitCount), w);
      TakeOver(w);
      bitBuffer, bitCount := 0, 0;
      BehindBytes(sent, output, []);
      NoBits(0);
      BitIo.Associative(BytesToBits(sent + output), [], []);
    }

    /** Append whole bytes. */
    method PushBytes(bytes: seq<byte>)
      requires bitCount == 0
      modifies this`output
      ensures output == old(output) + bytes && Bits() == old(Bits()) + BytesToBits(bytes)
    {
      hide BytesToBits;
      NoBits(bitBuffer);
      BytesToBitsConcat(sent + output, bytes);
      assert sent + (output + bytes) == (sent + output) + bytes;
      output := output + bytes;
    }

    method EmitStoredBlock(data: seq<byte>, isFinal: bool)
      requires Ready() && |data| <= MAX_STORED_BLOCK
      modifies this`output, this`bitBuffer, this`bitCount
      ensures Ready() && bitCount == 0 && old(output) <= output
      ensures Bits() == old(Bits()) + StoredBlockBits(old(|Bits()|), data, isFinal)
    {
      hide BytesToBits, ToBits, HeaderBits;
      StartStored(isFinal);
      ghost var head := Bits();
      var len, nlen := |data|, 0xFFFF - |data|;
      PushBytes([len % 256, len / 256]);
      PushBytes([nlen % 256, nlen / 256]);
      PushBytes(data);
      StoredParts(old(Bits()), head, data, isFinal);
    }

    method EmitStoredChunk(chunk: seq<byte>, isFinal: bool)
      requires Ready()
      modifies this`output, this`bitBuffer, this`bitCount
      ensures Ready() && bitCount == 0 && old(output) <= output
      ensures Bits() == old(Bits()) + StoredBits(old(|Bits()|), chunk, isFinal)
      ensures chunk == [] ==> |output| >= old(|output|) + 4 && output[|output| - 4..] == [0, 0, 0xFF, 0xFF]
    {
      hide BytesToBits, ToBits, HeaderBits, StoredBlockBits;
      var total := |chunk|;
      if total == 0 {
        StartStored(isFinal);
        ghost var head := Bits();
        PushBytes([0, 0, 0xFF, 0xFF]);
        MarkerParts(old(Bits()), head, isFinal);
        return;
      }
      var offset := 0;
      assert chunk[0..] == chunk;
      while offset < total
        invariant offset <= total && Ready() && (offset > 0 ==> bitCount == 0) && old(output) <= output
        invariant offset < total ==>
                    Bits() + StoredBits(|Bits()|, chunk[offset..],
                        isFinal) == old(Bits()) + StoredBits(old(|Bits()|), chunk, isFinal)
        invariant offset == total ==> Bits() == old(Bits()) + StoredBits(old(|Bits()|), chunk, isFinal)
      {
        var subLen := Min(MAX_STORED_BLOCK, total - offset);
        var isLast := offset + subLen == total;
        ghost var before, rest := Bits(), chunk[offset..];
        var part := chunk[offset..offset + subLen];
        EmitStoredBlock(part, isFinal && isLast);
        SubBlock(before, rest, subLen, isFinal);
        assert rest[..subLen] == part && rest[subLen..] == chunk[offset + subLen..];
        offset := offset + subLen;
      }
    }

    method EmitBlockChunk(chunk: seq<byte>, isFinal: bool) returns (ghost ts: seq<Token>)
      requires Ready()
      modifies this`output, this`bitBuffer, this`bitCount, matcher
      ensures Ready() && TokensFor(ts, chunk) && (|chunk| < NIL ==> ts == Tokens(chunk))
      ensures Bits() == WithBlock(old(Bits()), options.kind, ts, chunk, isFinal)
      ensures (isFinal ==> bitCount == 0) && old(output) <= output
    {
      hide BytesToBits, ToBits, StoredBits, FixedBits, DynamicBits, TokensFor, Tokens;
      match options.kind {
        case Stored =>
          ts := Tokens(chunk);
          TokensStandFor(chunk);
          StoredWhole(|Bits()|, chunk, isFinal);
          EmitStoredChunk(chunk, isFinal);
          StoredPadded(old(Bits()), ts, chunk, isFinal);
        case _ => ts := EmitHuffmanBlockChunk(chunk, isFinal);
      }
    }

    // ----- Calls -----

    method Feed(data: seq<byte>) returns (r: Result<()>)
      requires Valid()
      modifies this, matcher
      ensures Valid() && matcher == old(matcher) && finishing == old(finishing) && sent == old(sent)
          && drained == old(drained)
      ensures r == if finishing then Err(FedAfterEnd) else Ok(())
      ensures r.Err? ==> State() == old(State()) && output == old(output) && fed == old(fed)
      ensures r.Ok? ==> fed == old(fed) + data && old(output) <= output
      ensures r.Ok? && Greedy(options) ==> State() == AfterFeed(options, old(State()), data)
    {
      hide BytesToBits, ToBits, Keeps, BlockBits, TokensFor, Tokens, Closed;
      if finishing {
        return Err(FedAfterEnd);
      }
      FedKeeps(State(), fed, data);
      input := input + data;
      fed := fed + data;
      if options.limit.Some? {
        var limit := options.limit.value;
        while |input| >= limit
          invariant Ready() && !finishing && matcher == old(matcher) && sent == old(sent) && drained == old(drained)
          invariant fed == old(fed) + data && Keeps(State(), fed) && old(output) <= output
          invariant Greedy(options) ==> SplitOff(options, State()) == AfterFeed(options, old(State()), data)
          decreases |input|
        {
          ghost var before := State();
          var chunk := input[..limit];
          input := input[limit..];
          ghost var ts := EmitBlockChunk(chunk, false);
          BlockKeeps(options.kind, before, fed, limit, ts);
        }
      }
      return Ok(());
    }

    /** Emit the final block, once. */
    method Finish()
      requires Valid()
      modifies this, matcher
      ensures Valid() && finishing && fed == old(fed) && matcher == old(matcher) && sent == old(sent)
          && drained == old(drained)
      ensures Closed(BytesToBits(sent + output), fed) && old(output) <= output
      ensures old(finishing) ==> output == old(output)
      ensures !old(finishing) && old(|input|) < NIL ==> Bits() == AfterFinish(options, old(State()))
      ensures !old(finishing) ==> BlockFor(options, old(State()), Bits(), true)
    {
      hide BytesToBits, ToBits, Keeps, WithBlock, AfterFinish, TokensFor, Tokens, Closed, BlockFor;
      if finishing {
        NoBits(bitBuffer);
        BitIo.Associative(BytesToBits(sent + output), [], []);
        return;
      }
      ghost var before := State();
      finishing := true;
      var chunk := input;
      input := [];
      ghost var ts := EmitBlockChunk(chunk, true);
      FinalCloses(options, before, fed, ts);
      FinalShown(options, before, ts);
      NoBits(bitBuffer);
      BitIo.Associative(BytesToBits(sent + output), [], []);
    }

    /** Emit pending input and an empty stored block: everything fed is then recovered, at a byte boundary. */
    method Flush() returns (r: Result<()>)
      requires Valid()
      modifies this, matcher
      ensures Valid() && matcher == old(matcher) && finishing == old(finishing) && fed == old(fed)
          && sent == old(sent) && drained == old(drained)
      ensures r == if finishing then Err(FedAfterEnd) else Ok(())
      ensures r.Err? ==> State() == old(State()) && output == old(output)
      ensures r.Ok? ==> input == [] && bitCount == 0
      ensures r.Ok? ==> Recovered(BytesToBits(sent + output), fed) && old(output) <= output
      ensures r.Ok? ==> |output| >= drained + 4 && output[|output| - 4..] == [0, 0, 0xFF, 0xFF]
      ensures r.Ok? && old(|input|) < NIL ==> State() == AfterFlush(options, old(State()))
      ensures r.Ok? && old(input) != [] ==> BlockFor(options, old(State()), Bits(), false)
    {
      hide BytesToBits, ToBits, Keeps, BlockBits, TokensFor, Tokens, Closed, StoredBits, Recovered, BlockFor;
      if finishing {
        return Err(FedAfterEnd);
      }
      if input != [] {
        ghost var before := State();
        var chunk := input;
        input := [];
        ghost var ts := EmitBlockChunk(chunk, false);
        AllTaken(chunk);
        BlockKeeps(options.kind, before, fed, |chunk|, ts);
        BlockStands(options, before, ts, false, StoredBits(|Bits()|, [], false));
      }
      NothingPending(Bits(), fed);
      EmptyStored(Bits(), fed);
      EmitStoredChunk([], false);
      NothingPending(Bits(), fed);
      NoBits(bitBuffer);
      BitIo.Associative(BytesToBits(sent + output), [], []);
      return Ok(());
    }

    /** Start over with an empty match finder; nothing emitted or pending changes. */
    method ResetHistory()
      requires Valid()
      modifies this`matcher
      ensures Valid() && fresh(matcher)
    {
      hide Closed, Keeps, BytesToBits, ToBits, Pow2;
      matcher := new MatchFinder();
    }

    function Output(): seq<byte>
      requires drained <= |output|
      reads this
    {
      output[drained..]
    }

    /** Everything handed over so far, and everything emitted. */
    ghost function Delivered(): seq<byte>
      requires drained <= |output|
      reads this
    {
      sent + output[..drained]
    }

    method Advance(n: nat)
      requires Valid() && n <= |Output()|
      modifies this`output, this`drained, this`sent
      ensures Valid() && State() == old(State()) && sent + output == old(sent + output)
      ensures Delivered() == old(Delivered()) + old(Output())[..n] && old(Output()) == old(Output())[..n] + Output()
      ensures |Output()| == old(|Output()|) - n
      ensures drained < 0x10_0000
    {
      hide BytesToBits, ToBits, Keeps, Closed;
      TakeFront(sent, output, drained, n);
      drained := drained + n;
      if drained >= COMPACT_THRESHOLD {
        DropFront(sent, output, drained);
        sent := sent + output[..drained];
        output := output[drained..];
        drained := 0;
      }
    }

    /** Finished once the final block is out and all output acknowledged: what was handed over is then the
        whole stream. */
    predicate IsFinished(): (r: bool)
      requires Valid()
      reads this, matcher
      ensures r ==> Closed(BytesToBits(Delivered()), fed)
      ensures finishing && Output() == [] ==> r
    {
      AllHandedOver(this);
      finishing && drained == |output|
    }
  }

  lemma {:induction false} AllHandedOver(e: Encoder)
    requires e.Valid()
    ensures e.finishing && e.drained == |e.output| ==> Closed(BytesToBits(e.Delivered()), e.fed)
  {
    hide BytesToBits, Closed, Keeps, Pow2;
    NoBits(e.bitBuffer);
    BitIo.Associative(BytesToBits(e.sent + e.output), [], []);
    assert e.output[..|e.output|] == e.output;
  }

  ghost predicate Closed(bits: BitString, fed: seq<byte>) {
    exists pad: nat :: pad < 8 && Ended(bits, fed, pad)
  }

  /** A writer only ever appends whole bytes. */
  lemma {:induction false} WriterGrew(before: seq<byte>, partial: BitString, w: BitWriter)
    requires w.Valid() && |partial| < 8 && BytesToBits(before) + partial <= w.Stream()
    ensures before <= w.output
  {
    hide BytesToBits, ToBits;
    var s := w.Stream();
    assert |before| <= |w.output| by { WholeBytes(|before|, |partial|, |w.output|, w.bitCount); }
    assert BytesToBits(before) == s[..8 * |before|];
    BytesPrefix(before, w.output, ToBits(w.bitBuffer, w.bitCount));
  }

  lemma {:induction false} WholeBytes(a: nat, p: nat, b: nat, q: nat)
    requires q < 8 && 8 * a + p <= 8 * b + q
    ensures a <= b
  {}

  /** Blocks stay below the length at which the matcher's 32-bit positions wrap. */
  predicate Greedy(o: EncodeOptions) {
    o.limit.Some? ==> o.limit.value < NIL
  }

  /** The final block closes the stream, and is the session's if its tokens are the greedy ones. */
  lemma {:induction false} FinalCloses(o: EncodeOptions, st: EncState, fed: seq<byte>, ts: seq<Token>)
    requires o.Ok() && Keeps(st, fed) && TokensFor(ts, st.pending)
    ensures Closed(WithBlock(st.bits, o.kind, ts, st.pending, true), fed)
    ensures ts == Tokens(st.pending) ==> WithBlock(st.bits, o.kind, ts, st.pending, true) == AfterFinish(o, st)
  {
    hide BlockBits, TokensFor, Tokens, Keeps, Ended;
    FinalEnds(o.kind, st, fed, ts);
  }

  lemma {:induction false} FinalShown(o: EncodeOptions, st: EncState, ts: seq<Token>)
    requires TokensFor(ts, st.pending) && (|st.pending| < NIL ==> ts == Tokens(st.pending))
    ensures BlockFor(o, st, WithBlock(st.bits, o.kind, ts, st.pending, true), true)
  {
    hide BlockBits, TokensFor, Tokens, BlockFor;
    var all := st.bits + BlockBits(o.kind, |st.bits|, ts, st.pending, true);
    BlockStands(o, st, ts, true, ToBits(0, PadTo8(|all|)));
  }

  lemma {:induction false} FedKeeps(st: EncState, fed: seq<byte>, data: seq<byte>)
    requires Keeps(st, fed)
    ensures Keeps(EncState(st.bits, st.pending + data), fed + data)
  {
    hide Recovered;
    var k, all := |fed| - |st.pending|, fed + data;
    assert all[..k] == fed[..k] && all == all[..k] + (st.pending + data);
  }

  lemma {:induction false} AllTaken(chunk: seq<byte>)
    ensures chunk[..|chunk|] == chunk && chunk[|chunk|..] == []
  {}

  /** With nothing pending, keeping is recovering. */
  lemma {:induction false} NothingPending(bits: BitString, fed: seq<byte>)
    ensures Keeps(EncState(bits, []), fed) <==> Recovered(bits, fed)
  {
    hide Recovered;
    assert fed[..|fed|] == fed && fed + [] == fed;
  }

  /** Header, lengths and data make a stored block. */
  lemma {:induction false} StoredParts(start: BitString, head: BitString, data: seq<byte>, isFinal: bool)
    requires |data| <= MAX_STORED_BLOCK && head == start + HeaderBits(isFinal, 0) + ToBits(0, PadTo8(|start| + 3))
    ensures var len, nlen := |data|, 0xFFFF - |data|;
            head + BytesToBits([len % 256, len / 256]) + BytesToBits([nlen % 256, nlen / 256]) + BytesToBits(data)
            == start + StoredBlockBits(|start|, data, isFinal)
  {
    hide BytesToBits, ToBits, HeaderBits;
    var len, nlen := |data|, 0xFFFF - |data|;
    LengthBytes(len);
    var a, b, d := BytesToBits([len % 256, len / 256]), BytesToBits([nlen % 256, nlen / 256]), BytesToBits(data);
    BytesToBitsConcat([len % 256, len / 256], [nlen % 256, nlen / 256]);
    assert [len % 256, len / 256] + [nlen % 256, nlen / 256] == [len % 256, len / 256, nlen % 256, nlen / 256];
    Regroup(start, HeaderBits(isFinal, 0), ToBits(0, PadTo8(|start| + 3)), a + b, d);
    BitIo.Associative(head, a, b);
  }

  lemma {:induction false} Regroup(start: BitString, h: BitString, p: BitString, l: BitString, d: BitString)
    ensures ((start + h + p) + l) + d == start + (h + p + (l + d))
  {}

  lemma {:induction false} MarkerParts(start: BitString, head: BitString, isFinal: bool)
    requires head == start + HeaderBits(isFinal, 0) + ToBits(0, PadTo8(|start| + 3))
    ensures head + BytesToBits([0, 0, 0xFF, 0xFF]) == start + StoredBits(|start|, [], isFinal)
  {
    hide BytesToBits, ToBits, HeaderBits;
    MarkerBytes();
    NoBytes();
    Regroup(start, HeaderBits(isFinal, 0), ToBits(0, PadTo8(|start| + 3)), ToBits(0, 16) + ToBits(0xFFFF, 16), []);
    BitIo.Associative(head + (ToBits(0, 16) + ToBits(0xFFFF, 16)), [], []);
  }

  lemma {:induction false} NoBytes()
    ensures BytesToBits([]) == []
  {}

  /** One sub-block of a stored chunk. */
  lemma {:induction false} SubBlock(bits: BitString, rest: seq<byte>, subLen: nat, isFinal: bool)
    requires rest != [] && subLen == Min(MAX_STORED_BLOCK, |rest|)
    ensures var b := StoredBlockBits(|bits|, rest[..subLen], isFinal && subLen == |rest|);
            if subLen == |rest| then bits + b == bits + StoredBits(|bits|, rest, isFinal)
            else bits + StoredBits(|bits|, rest, isFinal) ==
                 (bits + b) + StoredBits(|bits + b|, rest[subLen..], isFinal)
  {
    hide StoredBlockBits;
    if subLen == |rest| {
      assert rest[..subLen] == rest;
    } else {
      var b := StoredBlockBits(|bits|, rest[..subLen], false);
      BitIo.Associative(bits, b, StoredBits(|bits| + |b|, rest[subLen..], isFinal));
    }
  }

  lemma {:induction false} StoredPadded(bits: BitString, ts: seq<Token>, chunk: seq<byte>, isFinal: bool)
    requires TokensFor(ts, chunk)
    ensures bits + StoredBits(|bits|, chunk, isFinal) == WithBlock(bits, Stored, ts, chunk, isFinal)
  {
    hide StoredBits;
    var all := bits + StoredBits(|bits|, chunk, isFinal);
    StoredWhole(|bits|, chunk, isFinal);
    WholeBytesPad(|all|);
    NoBits(0);
    BitIo.Associative(all, [], []);
  }

  lemma {:induction false} TakeFront(sent: seq<byte>, output: seq<byte>, drained: nat, n: nat)
    requires drained + n <= |output|
    ensures sent + output[..drained + n] == (sent + output[..drained]) + output[drained..][..n]
    ensures output[drained..] == output[drained..][..n] + output[drained + n..]
  {}

  lemma {:induction false} DropFront(sent: seq<byte>, output: seq<byte>, k: nat)
    requires k <= |output|
    ensures (sent + output[..k]) + output[k..] == sent + output
        && (sent + output[..k]) + output[k..][..0] == sent + output[..k]
    ensures output[k..][0..] == output[k..]
  {}
}
