/** Dynamic blocks (section 3.2.7 of RFC 1951; `emit_dynamic_block_chunk` in src/encode.rs): the code
    lengths chosen for a token sequence, the header that describes them, and the decoder's reading of it.

    Trimming the header to HLIT, HDIST and HCLEN entries loses no codeword, because everything beyond
    has length zero and the decoder's missing entries are zero too. */
module DynamicBlocks {
  import opened Bits
  import opened BitIo
  import opened Errors
  import opened Canonical
  import opened Huffman
  import opened Symbols
  import opened Lz77
  import opened RunLengths
  import opened Blocks
  import opened CodeLengths
  import I = Inflate

  // ----- Frequencies and lengths -----

  function Bump(counts: seq<nat>, symbol: nat): (r: seq<nat>)
    requires symbol < |counts|
    ensures |r| == |counts| && forall i :: 0 <= i < |r| ==> r[i] == counts[i] + if i == symbol then 1 else 0
  {
    counts[symbol := counts[symbol] + 1]
  }

  function LiteralSymbol(t: Token): (s: nat)
    requires InRange(t)
    ensures s < 286
  {
    match t
    case Literal(b) => b
    case Pointer(length, _) => LengthRoundTrip(length); LengthSymbol(length).code
  }

  function DistanceCode(t: Token): (s: nat)
    requires InRange(t) && t.Pointer?
    ensures s < 30
  {
    DistanceRoundTrip(t.distance);
    DistanceSymbol(t.distance).code
  }

  ghost function LiteralCounts(ts: seq<Token>): (counts: seq<nat>)
    requires AllInRange(ts)
    ensures |counts| == 286
  {
    if ts == [] then I.Repeat(0, 286) else Bump(LiteralCounts(ts[..|ts| - 1]), LiteralSymbol(ts[|ts| - 1]))
  }

  ghost function DistanceCounts(ts: seq<Token>): (counts: seq<nat>)
    requires AllInRange(ts)
    ensures |counts| == 30
  {
    if ts == [] then I.Repeat(0, 30)
    else if ts[|ts| - 1].Pointer? then Bump(DistanceCounts(ts[..|ts| - 1]), DistanceCode(ts[|ts| - 1]))
    else DistanceCounts(ts[..|ts| - 1])
  }

  ghost predicate HasPointer(ts: seq<Token>) {
    ts != [] && (ts[|ts| - 1].Pointer? || HasPointer(ts[..|ts| - 1]))
  }

  /** End-of-block is always sent, once. */
  ghost function LiteralFrequencies(ts: seq<Token>): (f: seq<nat>)
    requires AllInRange(ts)
    ensures |f| == 286
  {
    LiteralCounts(ts)[END_OF_BLOCK := 1]
  }

  /** Without pointers, distance 0 gets a codeword all the same: the decoder rejects an empty code. */
  ghost function DistanceFrequencies(ts: seq<Token>): (f: seq<nat>)
    requires AllInRange(ts)
    ensures |f| == 30
  {
    if HasPointer(ts) then DistanceCounts(ts) else DistanceCounts(ts)[0 := 1]
  }

  ghost function LiteralLengthsFor(ts: seq<Token>): (l: seq<nat>)
    requires AllInRange(ts)
    ensures |l| == 286
  {
    LimitedLengths(LiteralFrequencies(ts), MAX_BITS)
  }

  ghost function DistanceLengthsFor(ts: seq<Token>): (l: seq<nat>)
    requires AllInRange(ts)
    ensures |l| == 30
  {
    LimitedLengths(DistanceFrequencies(ts), MAX_BITS)
  }

  /** Every symbol that occurs is counted. */
  lemma {:induction false} TokenCounted(ts: seq<Token>, i: nat)
    requires AllInRange(ts) && i < |ts|
    ensures LiteralCounts(ts)[LiteralSymbol(ts[i])] > 0
    ensures ts[i].Pointer? ==> DistanceCounts(ts)[DistanceCode(ts[i])] > 0 && HasPointer(ts)
  {
    hide LiteralSymbol, DistanceCode, InRange;
    if i < |ts| - 1 {
      assert ts[..|ts| - 1][i] == ts[i];
      TokenCounted(ts[..|ts| - 1], i);
    }
  }

  lemma {:induction false} PointersCounted(ts: seq<Token>)
    requires AllInRange(ts) && HasPointer(ts)
    ensures exists s :: 0 <= s < 30 && DistanceCounts(ts)[s] > 0
  {
    hide DistanceCode, InRange;
    if ts[|ts| - 1].Pointer? {
      TokenCounted(ts, |ts| - 1);
    } else {
      PointersCounted(ts[..|ts| - 1]);
      assert DistanceCounts(ts) == DistanceCounts(ts[..|ts| - 1]);
    }
  }

  /** Length-limited lengths of frequencies with some non-zero entry make an accepted code. */
  lemma {:induction false} LimitedAccepted(frequencies: seq<nat>, maxBitwidth: nat, s: nat)
    requires 1 <= maxBitwidth <= MAX_BITS && |frequencies| <= Pow2(maxBitwidth)
    requires s < |frequencies| && frequencies[s] > 0
    ensures var w := LimitedLengths(frequencies, maxBitwidth);
            Acceptable(w) && forall i :: 0 <= i < |w| ==> w[i] <= maxBitwidth && (w[i] > 0 <==> frequencies[i] > 0)
  {
    hide LimitedLengths, Acceptable, Kraft, Used;
    UsedAtMost(frequencies);
    LimitedLengthsValid(frequencies, maxBitwidth);
    var w := LimitedLengths(frequencies, maxBitwidth);
    assert w[s] > 0;
    assert forall i :: 0 <= i < |w| ==> w[i] <= MAX_BITS;
    assert Kraft(w, |w|) <= Pow2(MAX_BITS);
    AcceptableIff(w);
  }

  lemma {:induction false} UsedAtMost(frequencies: seq<nat>)
    ensures |Used(frequencies)| <= |frequencies|
  {
    LeavesAtMost(frequencies, |frequencies|);
  }

  /** The lengths chosen for a token sequence cover all its symbols. */
  lemma {:induction false} LengthsFit(ts: seq<Token>)
    requires AllInRange(ts)
    ensures Lengths(LiteralLengthsFor(ts), DistanceLengthsFor(ts))
    ensures AllCoded(LiteralLengthsFor(ts), DistanceLengthsFor(ts), ts)
    ensures forall i :: 0 <= i < 286 ==> LiteralLengthsFor(ts)[i] <= MAX_BITS
    ensures forall i :: 0 <= i < 30 ==> DistanceLengthsFor(ts)[i] <= MAX_BITS
  {
    hide LimitedLengths, Acceptable, LiteralCounts, DistanceCounts, HasPointer;
    Pow2Values();
    var f, g := LiteralFrequencies(ts), DistanceFrequencies(ts);
    LimitedAccepted(f, MAX_BITS, END_OF_BLOCK);
    if HasPointer(ts) {
      PointersCounted(ts);
    }
    var d :| 0 <= d < 30 && g[d] > 0;
    LimitedAccepted(g, MAX_BITS, d);
    forall i | 0 <= i < |ts| ensures Coded(LiteralLengthsFor(ts), DistanceLengthsFor(ts), ts[i]) {
      TokenCounted(ts, i);
      TokenCoded(ts, i);
    }
  }

  lemma {:induction false} TokenCoded(ts: seq<Token>, i: nat)
    requires AllInRange(ts) && i < |ts|
    requires forall j :: 0 <= j < 286 ==> (LiteralLengthsFor(ts)[j] > 0 <==> LiteralFrequencies(ts)[j] > 0)
    requires forall j :: 0 <= j < 30 ==> (DistanceLengthsFor(ts)[j] > 0 <==> DistanceFrequencies(ts)[j] > 0)
    ensures Coded(LiteralLengthsFor(ts), DistanceLengthsFor(ts), ts[i])
  {
    hide LimitedLengths, LiteralCounts, DistanceCounts, HasPointer, LengthSymbol, DistanceSymbol, LiteralLengthsFor,
         DistanceLengthsFor;
    TokenCounted(ts, i);
    if ts[i].Pointer? {
      LengthRoundTrip(ts[i].length);
      DistanceRoundTrip(ts[i].distance);
      assert LiteralFrequencies(ts)[LiteralSymbol(ts[i])] > 0;
      assert DistanceFrequencies(ts)[DistanceCode(ts[i])] > 0;
    } else {
      assert LiteralFrequencies(ts)[ts[i].b] > 0;
    }
  }

  // ----- Trimming -----

  /** One more than the last used symbol; 0 if there is none. */
  function UsedCount(lengths: seq<nat>): (n: nat)
    ensures n <= |lengths| && (n > 0 ==> lengths[n - 1] > 0) && forall i :: n <= i < |lengths| ==> lengths[i] == 0
  {
    if lengths == [] then 0
    else if lengths[|lengths| - 1] > 0 then |lengths|
    else UsedCount(lengths[..|lengths| - 1])
  }

  /** One more than the last used place in transmission order. */
  function OrderCount(bw: seq<nat>, n: nat): (k: nat)
    requires |bw| == 19 && n <= 19
    ensures k <= n && (k > 0 ==> bw[OrderSlot(k - 1)] > 0) && forall i :: k <= i < n ==> bw[OrderSlot(i)] == 0
  {
    hide OrderSlot;
    if n == 0 then 0 else if bw[OrderSlot(n - 1)] > 0 then n else OrderCount(bw, n - 1)
  }

  function LiteralCount(lit: seq<nat>): (n: nat)
    requires |lit| == 286
    ensures 257 <= n <= 286
  {
    Max(257, UsedCount(lit))
  }

  function DistanceCount(dist: seq<nat>): (n: nat)
    requires |dist| == 30
    ensures 1 <= n <= 30
  {
    Max(1, UsedCount(dist))
  }

  function WidthCount(bw: seq<nat>): (n: nat)
    requires |bw| == 19
    ensures 4 <= n <= 19 && forall i :: n <= i < 19 ==> bw[OrderSlot(i)] == 0
  {
    Max(4, OrderCount(bw, 19))
  }

  /** The widths the header describes. */
  ghost function HeaderWidths(lit: seq<nat>, dist: seq<nat>): (w: seq<nat>)
    requires |lit| == 286 && |dist| == 30
    ensures |w| == LiteralCount(lit) + DistanceCount(dist)
  {
    lit[..LiteralCount(lit)] + dist[..DistanceCount(dist)]
  }

  ghost function WidthCounts(codes: seq<WidthCode>): (counts: seq<nat>)
    requires forall i :: 0 <= i < |codes| ==> codes[i].code < 19
    ensures |counts| == 19
  {
    if codes == [] then I.Repeat(0, 19) else Bump(WidthCounts(codes[..|codes| - 1]), codes[|codes| - 1].code)
  }

  lemma {:induction false} WidthCounted(codes: seq<WidthCode>, i: nat)
    requires (forall j :: 0 <= j < |codes| ==> codes[j].code < 19) && i < |codes|
    ensures WidthCounts(codes)[codes[i].code] > 0
  {
    if i < |codes| - 1 {
      assert codes[..|codes| - 1][i] == codes[i];
      WidthCounted(codes[..|codes| - 1], i);
    }
  }

  lemma {:induction false} ReadableCodes(codes: seq<WidthCode>, sofar: seq<nat>)
    requires AllReadable(codes, sofar)
    ensures forall i :: 0 <= i < |codes| ==> codes[i].code < 19
    decreases |codes|
  {
    if codes != [] {
      ReadableCodes(codes[1..], sofar + Piece(codes[0], sofar));
      assert forall i :: 1 <= i < |codes| ==> codes[i] == codes[1..][i - 1];
    }
  }

  /** Code-length codes with a codeword each. */
  ghost predicate WidthsCoded(bw: seq<nat>, codes: seq<WidthCode>) {
    |bw| == 19 && Acceptable(bw) && (forall i :: 0 <= i < 19 ==> bw[i] <= 7)
    && forall i :: 0 <= i < |codes| ==> codes[i].code < 19 && bw[codes[i].code] > 0
  }

  ghost function WidthLengths(codes: seq<WidthCode>): (bw: seq<nat>)
    requires forall i :: 0 <= i < |codes| ==> codes[i].code < 19
    ensures |bw| == 19
  {
    LimitedLengths(WidthCounts(codes), 7)
  }

  lemma {:induction false} WidthLengthsFit(codes: seq<WidthCode>)
    requires codes != [] && forall i :: 0 <= i < |codes| ==> codes[i].code < 19
    ensures WidthsCoded(WidthLengths(codes), codes)
  {
    hide LimitedLengths, Acceptable, WidthCounts;
    Pow2Values();
    WidthCounted(codes, 0);
    LimitedAccepted(WidthCounts(codes), 7, codes[0].code);
    forall i | 0 <= i < |codes| ensures WidthLengths(codes)[codes[i].code] > 0 {
      WidthCounted(codes, i);
    }
  }

  // ----- The header's bits -----

  ghost function OrderBits(bw: seq<nat>, i: nat, n: nat): (b: BitString)
    requires |bw| == 19 && i <= n <= 19
    decreases n - i
  {
    if i == n then [] else ToBits(bw[OrderSlot(i)], 3) + OrderBits(bw, i + 1, n)
  }

  ghost function CodesBits(bw: seq<nat>, codes: seq<WidthCode>): BitString
    requires WidthsCoded(bw, codes)
    decreases |codes|
  {
    if codes == [] then []
    else SymbolBits(bw, AsSymbol(codes[0])) + CodesBits(bw, codes[1..])
  }

  ghost function AsSymbol(c: WidthCode): EncodedSymbol {
    EncodedSymbol(c.code, c.extraBits, c.extra)
  }

  ghost function CountsBits(hlit: nat, hdist: nat, hclen: nat): (b: BitString)
    requires 257 <= hlit && 1 <= hdist && 4 <= hclen
  {
    ToBits(hlit - 257, 5) + ToBits(hdist - 1, 5) + ToBits(hclen - 4, 4)
  }

  /** Everything between the three header bits and the symbols, with `n` code-length lengths. */
  ghost function TablesText(hlit: nat, hdist: nat, n: nat, bw: seq<nat>, codes: seq<WidthCode>): (b: BitString)
    requires 257 <= hlit && 1 <= hdist && 4 <= n <= 19 && WidthsCoded(bw, codes)
  {
    CountsBits(hlit, hdist, n) + OrderBits(bw, 0, n) + CodesBits(bw, codes)
  }

  /** The same, with no more code-length lengths than needed. */
  ghost function TablesBits(hlit: nat, hdist: nat, bw: seq<nat>, codes: seq<WidthCode>): (b: BitString)
    requires 257 <= hlit && 1 <= hdist && WidthsCoded(bw, codes)
  {
    TablesText(hlit, hdist, WidthCount(bw), bw, codes)
  }

  // ----- Reading the header -----

  /** The decoder's code-length table after `i` entries. */
  ghost function Placed(bw: seq<nat>, i: nat): (t: seq<nat>)
    requires |bw| == 19 && i <= 19
    ensures |t| == 19 && forall j :: 0 <= j < 19 ==> t[j] == bw[j] || t[j] == 0
  {
    if i == 0 then I.Repeat(0, 19) else Placed(bw, i - 1)[OrderSlot(i - 1) := bw[OrderSlot(i - 1)]]
  }

  /** Places beyond the transmitted ones hold zero anyway. */
  lemma {:induction false} PlacedTrim(bw: seq<nat>, n: nat, m: nat)
    requires |bw| == 19 && n <= m <= 19 && forall i :: n <= i < m ==> bw[OrderSlot(i)] == 0
    ensures Placed(bw, m) == Placed(bw, n)
    decreases m
  {
    hide OrderSlot;
    if n < m { PlacedTrim(bw, n, m - 1); }
  }

  /** The transmission order names every code-length symbol. */
  function OrderIndex(slot: nat): (i: nat)
    requires slot < 19
    ensures i < 19 && OrderSlot(i) == slot
  {
    match slot
    case 16 => 0 case 17 => 1 case 18 => 2 case 0 => 3 case 8 => 4 case 7 => 5 case 9 => 6 case 6 => 7
    case 10 => 8 case 5 => 9 case 11 => 10 case 4 => 11 case 12 => 12 case 3 => 13 case 13 => 14 case 2 => 15
    case 14 => 16 case 1 => 17 case _ => 18
  }

  lemma {:induction false} PlacedAt(bw: seq<nat>, i: nat, n: nat)
    requires |bw| == 19 && i < n <= 19
    ensures Placed(bw, n)[OrderSlot(i)] == bw[OrderSlot(i)]
    decreases n
  {
    hide OrderSlot;
    if i < n - 1 { PlacedAt(bw, i, n - 1); }
  }

  lemma {:induction false} PlacedWhole(bw: seq<nat>, n: nat)
    requires |bw| == 19 && n <= 19 && forall i :: n <= i < 19 ==> bw[OrderSlot(i)] == 0
    ensures Placed(bw, n) == bw
  {
    hide OrderSlot, OrderIndex, Placed;
    PlacedTrim(bw, n, 19);
    forall j | 0 <= j < 19 ensures Placed(bw, 19)[j] == bw[j] {
      PlacedAt(bw, OrderIndex(j), 19);
    }
  }

  /** `i` of `n` code-length lengths are read. */
  ghost function TableState(isFinal: bool, hlit: nat, hdist: nat, n: nat, bw: seq<nat>, i: nat): I.State
    requires |bw| == 19 && i <= 19
  {
    I.DynamicBitwidthTable(isFinal, hlit, hdist, n, i, Placed(bw, i))
  }

  lemma {:induction false} OrderLeads(s: BitString, pos: nat, out: seq<byte>, isFinal: bool, hlit: nat, hdist: nat,
      n: nat, bw: seq<nat>, i: nat)
    requires |bw| == 19 && i <= n <= 19 && (forall j :: 0 <= j < 19 ==> bw[j] <= 7)
    requires 257 <= hlit <= 288 && 1 <= hdist <= 30
    requires At(s, pos, OrderBits(bw, i, n))
    ensures Leads(s, I.Config(TableState(isFinal, hlit, hdist, n, bw, i), out, pos),
                  I.Config(TableState(isFinal, hlit, hdist, n, bw, n), out, pos + |OrderBits(bw, i, n)|))
    decreases 19 - i
  {
    hide I.Run, I.Step, I.ValidState, OrderSlot, ToBits, At, TableState;
    TableValid(isFinal, hlit, hdist, n, bw, i);
    if i < n {
      AtSplit(s, pos, ToBits(bw[OrderSlot(i)], 3), OrderBits(bw, i + 1, n));
      OrderStep(s, pos, out, isFinal, hlit, hdist, n, bw, i);
      OrderLeads(s, pos + 3, out, isFinal, hlit, hdist, n, bw, i + 1);
    } else {
      AtBound(s, pos, []);
    }
  }

  lemma {:induction false} TableValid(isFinal: bool, hlit: nat, hdist: nat, n: nat, bw: seq<nat>, i: nat)
    requires |bw| == 19 && i <= n <= 19 && 257 <= hlit <= 288 && 1 <= hdist <= 30
    ensures I.ValidState(TableState(isFinal, hlit, hdist, n, bw, i))
  {
    hide OrderSlot;
  }

  /** One 3-bit length goes to its slot. */
  lemma {:induction false} OrderStep(s: BitString, pos: nat, out: seq<byte>, isFinal: bool, hlit: nat, hdist: nat,
      n: nat, bw: seq<nat>, i: nat)
    requires |bw| == 19 && i < n <= 19 && (forall j :: 0 <= j < 19 ==> bw[j] <= 7)
    requires 257 <= hlit <= 288 && 1 <= hdist <= 30 && At(s, pos, ToBits(bw[OrderSlot(i)], 3))
    ensures Leads(s, I.Config(TableState(isFinal, hlit, hdist, n, bw, i), out, pos),
                  I.Config(TableState(isFinal, hlit, hdist, n, bw, i + 1), out, pos + 3))
  {
    hide I.Run, I.Step, Leads, OrderSlot, I.Field, ToBits, At, MakeCode;
    Pow2Values();
    FieldAt(s, pos, bw[OrderSlot(i)], 3);
    I.BitwidthCase(s, I.Config(TableState(isFinal, hlit, hdist, n, bw, i), out, pos));
    StepLeads(s, I.Config(TableState(isFinal, hlit, hdist, n, bw, i), out, pos),
              I.Config(TableState(isFinal, hlit, hdist, n, bw, i + 1), out, pos + 3));
  }

  lemma {:induction false} UnpackGrows(codes: seq<WidthCode>, sofar: seq<nat>)
    ensures |sofar| <= |Unpack(codes, sofar)|
    decreases |codes|
  {
    if codes != [] { UnpackGrows(codes[1..], sofar + Piece(codes[0], sofar)); }
  }

  lemma {:induction false} PieceAdds(c: WidthCode, sofar: seq<nat>)
    requires Readable(c, sofar)
    ensures |Piece(c, sofar)| >= 1
  {}

  /** The decoder reads one code-length code as the widths it stands for. */
  lemma {:induction false} RunRead(bw: seq<nat>, code: Code, c: WidthCode, sofar: seq<nat>, s: BitString, pos: nat)
    requires Acceptable(bw) && code.entries == SortedEntries(bw) && code.peek == 1 && Readable(c, sofar)
    requires SymbolAt(bw, AsSymbol(c), s, pos, 1)
    ensures I.ReadLengthRun(code, sofar, s, pos) == I.LengthRun(Piece(c, sofar), pos + |SymbolBits(bw, AsSymbol(c))|)
  {
    hide Acceptable, SymbolAt, SymbolBits, SortedEntries, Decode, I.Field;
    SymbolRead(bw, code, AsSymbol(c), s, pos, 1);
  }

  ghost function LengthsState(isFinal: bool, hlit: nat, hdist: nat, code: Code, sofar: seq<nat>): I.State {
    I.DynamicCodeLengths(isFinal, hlit, hdist, code, sofar)
  }

  ghost predicate WidthCodeFor(code: Code, bw: seq<nat>) {
    Acceptable(bw) && code.entries == SortedEntries(bw) && code.peek == 1
  }

  lemma {:induction false} CodesLeads(s: BitString, pos: nat, out: seq<byte>, isFinal: bool, hlit: nat, hdist: nat,
                                      bw: seq<nat>, code: Code, codes: seq<WidthCode>, sofar: seq<nat>)
    requires WidthsCoded(bw, codes) && WidthCodeFor(code, bw) && AllReadable(codes, sofar)
    requires 257 <= hlit <= 288 && 1 <= hdist <= 30 && |Unpack(codes, sofar)| <= hlit + hdist
    requires At(s, pos, CodesBits(bw, codes)) && pos + |CodesBits(bw, codes)| + 1 <= |s|
    ensures Leads(s, I.Config(LengthsState(isFinal, hlit, hdist, code, sofar), out, pos),
                  I.Config(LengthsState(isFinal, hlit, hdist, code, Unpack(codes, sofar)), out,
                           pos + |CodesBits(bw, codes)|))
    decreases |codes|
  {
    hide I.Run, At, Acceptable, Piece, Readable, SymbolBits, SortedEntries, I.ReadLengthRun;
    UnpackGrows(codes, sofar);
    WidthCodePeek(code, bw);
    if codes != [] {
      var c, rest := codes[0], codes[1..];
      var next := sofar + Piece(c, sofar);
      UnpackGrows(rest, next);
      PieceAdds(c, sofar);
      var bits := SymbolBits(bw, AsSymbol(c));
      AtSplit(s, pos, bits, CodesBits(bw, rest));
      RunRead(bw, code, c, sofar, s, pos);
      CodeStep(s, pos, out, isFinal, hlit, hdist, code, sofar, Piece(c, sofar), pos + |bits|);
      CodesLeads(s, pos + |bits|, out, isFinal, hlit, hdist, bw, code, rest, next);
    }
  }

  lemma {:induction false} WidthCodePeek(code: Code, bw: seq<nat>)
    requires WidthCodeFor(code, bw)
    ensures code.peek == 1 && Acceptable(bw) && code.entries == SortedEntries(bw)
  {}

  lemma {:induction false} CodeStep(s: BitString, pos: nat, out: seq<byte>, isFinal: bool, hlit: nat, hdist: nat,
                                    code: Code, sofar: seq<nat>, more: seq<nat>, end: nat)
    requires 257 <= hlit <= 288 && 1 <= hdist <= 30 && code.peek == 1 && pos <= |s|
    requires I.ReadLengthRun(code, sofar, s, pos) == I.LengthRun(more, end)
    requires |more| >= 1 && |sofar + more| <= hlit + hdist
    ensures Leads(s, I.Config(LengthsState(isFinal, hlit, hdist, code, sofar), out, pos),
                  I.Config(LengthsState(isFinal, hlit, hdist, code, sofar + more), out, end))
  {
    hide I.Run, I.Step, Leads, I.ReadLengthRun, I.EnterSymbolLoop;
    I.CodeLengthsCase(s, I.Config(LengthsState(isFinal, hlit, hdist, code, sofar), out, pos));
    StepLeads(s, I.Config(LengthsState(isFinal, hlit, hdist, code, sofar), out, pos),
              I.Config(LengthsState(isFinal, hlit, hdist, code, sofar + more), out, end));
  }

  // ----- From the header to the symbol loop -----

  /** Trimming goes as far as it may: above the least counts a header can name, the last length described is
      not zero, and everything beyond is. */
  lemma {:induction false} TrimmedTight(lit: seq<nat>, dist: seq<nat>, bw: seq<nat>)
    requires |lit| == 286 && |dist| == 30 && |bw| == 19
    ensures LiteralCount(lit) > 257 ==> lit[LiteralCount(lit) - 1] > 0
    ensures DistanceCount(dist) > 1 ==> dist[DistanceCount(dist) - 1] > 0
    ensures WidthCount(bw) > 4 ==> bw[OrderSlot(WidthCount(bw) - 1)] > 0
    ensures forall i :: LiteralCount(lit) <= i < 286 ==> lit[i] == 0
    ensures forall i :: DistanceCount(dist) <= i < 30 ==> dist[i] == 0
    ensures forall i :: WidthCount(bw) <= i < 19 ==> bw[OrderSlot(i)] == 0
  {
    hide UsedCount, OrderCount, OrderSlot;
  }

  /** Trimming unused symbols off the end changes no codeword. */
  lemma {:induction false} Trimmed(lengths: seq<nat>, n: nat)
    requires UsedCount(lengths) <= n <= |lengths|
    ensures SortedEntries(lengths[..n]) == SortedEntries(lengths)
    ensures Acceptable(lengths) ==> Acceptable(lengths[..n])
  {
    CollectTrim(lengths, n, |lengths|);
  }

  /** The state that follows the header. */
  ghost function DynamicLoop(isFinal: bool, lit: seq<nat>, dist: seq<nat>): I.State
    requires |lit| == 286 && |dist| == 30 && Lengths(lit, dist)
  {
    Trimmed(lit, LiteralCount(lit));
    Trimmed(dist, DistanceCount(dist));
    var literal := MakeCode(lit[..LiteralCount(lit)], None, Some(END_OF_BLOCK)).value;
    I.SymbolLoop(isFinal, literal, MakeCode(dist[..DistanceCount(dist)], Some(literal.peek), None).value)
  }

  lemma {:induction false} PeekIsEob(lit: seq<nat>)
    requires Acceptable(lit) && |lit| > END_OF_BLOCK && lit[END_OF_BLOCK] > 0
    ensures MakeCode(lit, None, Some(END_OF_BLOCK)).value.peek == lit[END_OF_BLOCK]
  {
    hide Acceptable, SortedEntries, MakeCode;
    EntriesMade(lit, None, Some(END_OF_BLOCK));
    PeekIsEobWidth(lit, None, END_OF_BLOCK);
    var i := IndexOf(lit, END_OF_BLOCK);
  }

  lemma {:induction false} DynamicInLoop(isFinal: bool, lit: seq<nat>, dist: seq<nat>)
    requires |lit| == 286 && |dist| == 30 && Lengths(lit, dist)
    ensures InLoop(DynamicLoop(isFinal, lit, dist), lit, dist)
  {
    hide I.LoopCodes, MakeCode, SortedEntries, LiteralCount, DistanceCount, Acceptable;
    LengthsParts(lit, dist);
    var l, d := lit[..LiteralCount(lit)], dist[..DistanceCount(dist)];
    TrimmedCounts(lit, dist);
    EntriesMade(l, None, Some(END_OF_BLOCK));
    var peek := MakeCode(l, None, Some(END_OF_BLOCK)).value.peek;
    EntriesMade(d, Some(peek), None);
    PeekIsEob(l);
    I.LoopCodesMade(l, d, peek);
  }

  lemma {:induction false} TrimmedCounts(lit: seq<nat>, dist: seq<nat>)
    requires |lit| == 286 && |dist| == 30 && Acceptable(lit) && Acceptable(dist)
    ensures var l, d := lit[..LiteralCount(lit)], dist[..DistanceCount(dist)];
            Acceptable(l) && Acceptable(d) && SortedEntries(l) == SortedEntries(lit)
                && SortedEntries(d) == SortedEntries(dist)
  {
    hide Acceptable, SortedEntries;
    Trimmed(lit, LiteralCount(lit));
    Trimmed(dist, DistanceCount(dist));
  }

  // ----- Whole dynamic blocks -----

  /** All the widths to describe are code lengths. */
  ghost predicate Short(lit: seq<nat>, dist: seq<nat>)
    requires |lit| == 286 && |dist| == 30
  {
    forall i :: 0 <= i < |HeaderWidths(lit, dist)| ==> HeaderWidths(lit, dist)[i] <= 15
  }

  /** A header that fits the codes it describes. */
  ghost predicate Describes(lit: seq<nat>, dist: seq<nat>, bw: seq<nat>) {
    |lit| == 286 && |dist| == 30 && Lengths(lit, dist) && WidthsCoded(bw, WidthCodes(HeaderWidths(lit, dist)))
    && Short(lit, dist)
  }

  ghost function DynamicBlockBits(lit: seq<nat>, dist: seq<nat>, bw: seq<nat>, ts: seq<Token>, isFinal: bool): BitString
    requires Describes(lit, dist, bw) && AllInRange(ts)
  {
    HeaderBits(isFinal, 2) + TablesBits(LiteralCount(lit), DistanceCount(dist), bw, WidthCodes(HeaderWidths(lit, dist)))
    + TokensBits(lit, dist, ts)
  }

  lemma {:induction false} DynamicHeaderLeads(s: BitString, pos: nat, out: seq<byte>, isFinal: bool, hlit: nat,
      hdist: nat, n: nat, bw: seq<nat>)
    requires |bw| == 19 && 257 <= hlit <= 288 && 1 <= hdist <= 30 && 4 <= n <= 19
    requires At(s, pos, CountsBits(hlit, hdist, n))
    ensures Leads(s, I.Config(I.DynamicHeader(isFinal), out, pos),
                  I.Config(TableState(isFinal, hlit, hdist, n, bw, 0), out, pos + 14))
  {
    hide I.Run, I.Step, I.Field, ToBits, At, Leads, OrderSlot;
    Pow2Values();
    CountsRead(s, pos, hlit, hdist, n);
    I.DynamicHeaderCase(s, I.Config(I.DynamicHeader(isFinal), out, pos));
    StepLeads(s, I.Config(I.DynamicHeader(isFinal), out, pos),
              I.Config(TableState(isFinal, hlit, hdist, n, bw, 0), out, pos + 14));
  }

  lemma {:induction false} CountsRead(s: BitString, pos: nat, hlit: nat, hdist: nat, n: nat)
    requires 257 <= hlit <= 288 && 1 <= hdist <= 32 && 4 <= n <= 19 && At(s, pos, CountsBits(hlit, hdist, n))
    ensures pos + 14 <= |s| && I.Field(s, pos, 5) == hlit - 257
    ensures I.Field(s, pos + 5, 5) == hdist - 1 && I.Field(s, pos + 10, 4) == n - 4
  {
    hide I.Field, ToBits, At;
    Pow2Values();
    AtThree(s, pos, ToBits(hlit - 257, 5), ToBits(hdist - 1, 5), ToBits(n - 4, 4));
    FieldAt(s, pos, hlit - 257, 5);
    FieldAt(s, pos + 5, hdist - 1, 5);
    FieldAt(s, pos + 10, n - 4, 4);
  }

  /** All code-length lengths are in: their code is built. */
  lemma {:induction false} TableDone(s: BitString, pos: nat, out: seq<byte>, isFinal: bool, hlit: nat, hdist: nat,
      n: nat, bw: seq<nat>)
    returns (code: Code)
    requires |bw| == 19 && 257 <= hlit <= 288 && 1 <= hdist <= 30 && n <= 19 && Acceptable(bw) && pos <= |s|
    requires forall i :: n <= i < 19 ==> bw[OrderSlot(i)] == 0
    ensures WidthCodeFor(code, bw)
    ensures Leads(s, I.Config(TableState(isFinal, hlit, hdist, n, bw, n), out, pos),
                  I.Config(LengthsState(isFinal, hlit, hdist, code, []), out, pos))
  {
    hide I.Run, I.Step, Leads, I.Field, Acceptable, SortedEntries, MakeCode, Placed, OrderSlot;
    PlacedWhole(bw, n);
    PeekAsAsked(bw, 1);
    EntriesMade(bw, Some(1), None);
    code := MakeCode(bw, Some(1), None).value;
    I.BitwidthCase(s, I.Config(TableState(isFinal, hlit, hdist, n, bw, n), out, pos));
    StepLeads(s, I.Config(TableState(isFinal, hlit, hdist, n, bw, n), out, pos),
              I.Config(LengthsState(isFinal, hlit, hdist, code, []), out, pos));
  }

  /** All lengths are in: the symbol loop starts with the codes they make. */
  lemma {:induction false} LengthsDone(s: BitString, pos: nat, out: seq<byte>, isFinal: bool, lit: seq<nat>,
      dist: seq<nat>, code: Code)
    requires |lit| == 286 && |dist| == 30 && Lengths(lit, dist) && code.peek == 1 && pos <= |s|
    ensures Leads(s,
                  I.Config(LengthsState(isFinal, LiteralCount(lit), DistanceCount(dist), code,
                                        HeaderWidths(lit, dist)), out, pos),
                  I.Config(DynamicLoop(isFinal, lit, dist), out, pos))
  {
    hide I.Run, I.Step, Leads, I.Field, Acceptable, SortedEntries, MakeCode, I.ReadLengthRun, I.LoopCodes,
         LiteralCount, DistanceCount;
    var hlit, hdist, all := LiteralCount(lit), DistanceCount(dist), HeaderWidths(lit, dist);
    LengthsParts(lit, dist);
    TrimmedCounts(lit, dist);
    assert all[..hlit] == lit[..hlit] && all[hlit..] == dist[..hdist];
    I.CodeLengthsCase(s, I.Config(LengthsState(isFinal, hlit, hdist, code, all), out, pos));
    StepLeads(s, I.Config(LengthsState(isFinal, hlit, hdist, code, all), out, pos),
              I.Config(DynamicLoop(isFinal, lit, dist), out, pos));
  }

  /** A header: counts, a code for code lengths, and codes that stand for as many widths as counted. */
  ghost predicate Describing(hlit: nat, hdist: nat, n: nat, bw: seq<nat>, codes: seq<WidthCode>) {
    257 <= hlit <= 288 && 1 <= hdist <= 30 && 4 <= n <= 19 && WidthsCoded(bw, codes)
    && (forall i :: n <= i < 19 ==> bw[OrderSlot(i)] == 0)
    && AllReadable(codes, []) && |Unpack(codes, [])| == hlit + hdist
  }

  /** Whatever widths a header describes, the machine reads exactly those. */
  lemma {:induction false} WidthsLead(s: BitString, pos: nat, out: seq<byte>, isFinal: bool, hlit: nat, hdist: nat,
      n: nat, bw: seq<nat>, codes: seq<WidthCode>)
    returns (code: Code)
    requires Describing(hlit, hdist, n, bw, codes)
    requires var bits := TablesText(hlit, hdist, n, bw, codes); At(s, pos, bits) && pos + |bits| + 1 <= |s|
    ensures code.peek == 1
    ensures Leads(s, I.Config(I.DynamicHeader(isFinal), out, pos),
                  I.Config(LengthsState(isFinal, hlit, hdist, code, Unpack(codes, [])), out,
                           pos + |TablesText(hlit, hdist, n, bw, codes)|))
  {
    hide I.Run, I.ValidState, At, WidthsCoded, Unpack, AllReadable, CodesBits, OrderBits, CountsBits, TableState,
         LengthsState, WidthCodeFor, Acceptable, OrderSlot;
    WidthsCodedParts(bw, codes);
    AtThree(s, pos, CountsBits(hlit, hdist, n), OrderBits(bw, 0, n), CodesBits(bw, codes));
    DynamicHeaderLeads(s, pos, out, isFinal, hlit, hdist, n, bw);
    CountsLength(hlit, hdist, n);
    var p := pos + 14;
    OrderLeads(s, p, out, isFinal, hlit, hdist, n, bw, 0);
    var q := p + |OrderBits(bw, 0, n)|;
    code := TableDone(s, q, out, isFinal, hlit, hdist, n, bw);
    WidthCodePeek(code, bw);
    CodesLeads(s, q, out, isFinal, hlit, hdist, bw, code, codes, []);
  }

  lemma {:induction false} WidthsCodedParts(bw: seq<nat>, codes: seq<WidthCode>)
    requires WidthsCoded(bw, codes)
    ensures |bw| == 19 && Acceptable(bw) && forall j :: 0 <= j < 19 ==> bw[j] <= 7
  {}

  lemma {:induction false} DescribesParts(lit: seq<nat>, dist: seq<nat>, bw: seq<nat>)
    requires Describes(lit, dist, bw)
    ensures |lit| == 286 && |dist| == 30 && |bw| == 19 && Lengths(lit, dist) && Acceptable(bw)
    ensures WidthsCoded(bw, WidthCodes(HeaderWidths(lit, dist))) && forall j :: 0 <= j < 19 ==> bw[j] <= 7
  {}

  /** The tables of a dynamic block bring the machine to the symbol loop with exactly these codes. */
  lemma {:induction false} TablesLead(s: BitString, pos: nat, out: seq<byte>, isFinal: bool, lit: seq<nat>,
      dist: seq<nat>, bw: seq<nat>)
    requires Describes(lit, dist, bw)
    requires var bits := TablesBits(LiteralCount(lit), DistanceCount(dist), bw, WidthCodes(HeaderWidths(lit, dist)));
             At(s, pos, bits) && pos + |bits| + 1 <= |s|
    ensures Leads(s, I.Config(I.DynamicHeader(isFinal), out, pos),
                  I.Config(DynamicLoop(isFinal, lit, dist), out,
                           pos + |TablesBits(LiteralCount(lit), DistanceCount(dist), bw,
                                             WidthCodes(HeaderWidths(lit, dist)))|))
  {
    hide I.Run, I.ValidState, At, WidthCount, WidthsCoded, Lengths, LiteralCount, DistanceCount, WidthCodes, Unpack,
         AllReadable,
         HeaderWidths, CodesBits, OrderBits, CountsBits, TableState, LengthsState, DynamicLoop, WidthCodeFor,
             Acceptable, Describes;
    DescribesParts(lit, dist, bw);
    HeaderDescribing(lit, dist, bw);
    var hlit, hdist, widths := LiteralCount(lit), DistanceCount(dist), HeaderWidths(lit, dist);
    var code := WidthsLead(s, pos, out, isFinal, hlit, hdist, WidthCount(bw), bw, WidthCodes(widths));
    LengthsDone(s, pos + |TablesBits(hlit, hdist, bw, WidthCodes(widths))|, out, isFinal, lit, dist, code);
  }

  lemma {:induction false} CountsLength(hlit: nat, hdist: nat, hclen: nat)
    requires 257 <= hlit && 1 <= hdist && 4 <= hclen
    ensures |CountsBits(hlit, hdist, hclen)| == 14
  {}

  lemma {:induction false} HeaderWidthsBack(lit: seq<nat>, dist: seq<nat>, bw: seq<nat>)
    requires Describes(lit, dist, bw)
    ensures var widths := HeaderWidths(lit, dist);
            AllReadable(WidthCodes(widths), []) && Unpack(WidthCodes(widths), []) == widths
            && |widths| == LiteralCount(lit) + DistanceCount(dist)
  {
    hide Lengths, WidthsCoded, WidthCodes, AllReadable, Unpack;
    WidthCodesRoundTrip(HeaderWidths(lit, dist));
  }

  lemma {:induction false} HeaderDescribing(lit: seq<nat>, dist: seq<nat>, bw: seq<nat>)
    requires Describes(lit, dist, bw)
    ensures var codes := WidthCodes(HeaderWidths(lit, dist));
            Describing(LiteralCount(lit), DistanceCount(dist), WidthCount(bw), bw, codes)
            && Unpack(codes, []) == HeaderWidths(lit, dist)
  {
    hide Lengths, WidthCodes, AllReadable, Unpack, Acceptable, OrderSlot, OrderCount;
    HeaderWidthsBack(lit, dist, bw);
  }

  lemma {:induction false} DynamicStart(s: BitString, pos: nat, out: seq<byte>, isFinal: bool)
    requires At(s, pos, HeaderBits(isFinal, 2))
    ensures Leads(s, I.Config(I.BlockHeader, out, pos), I.Config(I.DynamicHeader(isFinal), out, pos + 3))
  {
    hide I.Run, I.Step, Leads, I.Field, At, HeaderBits, I.FixedLiteralCode, I.FixedDistanceCode;
    HeaderAt(s, pos, isFinal, 2);
    I.BlockHeaderCase(s, I.Config(I.BlockHeader, out, pos));
    StepLeads(s, I.Config(I.BlockHeader, out, pos), I.Config(I.DynamicHeader(isFinal), out, pos + 3));
  }

  lemma {:induction false} DynamicBlockLeads(s: BitString, pos: nat, out: seq<byte>, lit: seq<nat>, dist: seq<nat>,
      bw: seq<nat>,
                                             ts: seq<Token>, chunk: seq<byte>, isFinal: bool)
    requires Describes(lit, dist, bw) && AllInRange(ts) && AllCoded(lit, dist, ts)
    requires Sound(ts, 0) && Expand(ts, []) == chunk && At(s, pos, DynamicBlockBits(lit, dist, bw, ts, isFinal))
    ensures Leads(s, I.Config(I.BlockHeader, out, pos),
                  I.Config(After(isFinal), out + chunk, pos + |DynamicBlockBits(lit, dist, bw, ts, isFinal)|))
  {
    hide I.Run, I.Field, I.ValidState, At, Lengths, WidthCodes, HeaderWidths, TablesBits, TokensBits, HeaderBits,
         DynamicLoop,
         Describes, Sound, Expand, InLoop, AllCoded, InRange, LiteralCount, DistanceCount, I.FixedLiteralCode,
             I.FixedDistanceCode;
    DescribesParts(lit, dist, bw);
    var tables := TablesBits(LiteralCount(lit), DistanceCount(dist), bw, WidthCodes(HeaderWidths(lit, dist)));
    AtThree(s, pos, HeaderBits(isFinal, 2), tables, TokensBits(lit, dist, ts));
    DynamicStart(s, pos, out, isFinal);
    TokensEnd(lit, dist, ts);
    AtBound(s, pos + 3 + |tables|, TokensBits(lit, dist, ts));
    LengthsParts(lit, dist);
    TablesLead(s, pos + 3, out, isFinal, lit, dist, bw);
    DynamicInLoop(isFinal, lit, dist);
    ChunkExpands(ts, chunk, out);
    TokensLeads(DynamicLoop(isFinal, lit, dist), lit, dist, s, pos + 3 + |tables|, out, ts);
    LoopFinal(isFinal, lit, dist);
  }

  lemma {:induction false} LoopFinal(isFinal: bool, lit: seq<nat>, dist: seq<nat>)
    requires |lit| == 286 && |dist| == 30 && Lengths(lit, dist)
    ensures DynamicLoop(isFinal, lit, dist).SymbolLoop? && DynamicLoop(isFinal, lit, dist).isFinal == isFinal
  {}

  lemma {:induction false} DynamicHeaderFront(s: BitString, pos: nat, lit: seq<nat>, dist: seq<nat>, bw: seq<nat>,
      ts: seq<Token>, isFinal: bool)
    requires Describes(lit, dist, bw) && AllInRange(ts) && At(s, pos, DynamicBlockBits(lit, dist, bw, ts, isFinal))
    ensures At(s, pos, HeaderBits(isFinal, 2))
  {
    hide At, Lengths, WidthCodes, HeaderWidths, TablesBits, TokensBits, HeaderBits, Describes, InRange, LiteralCount,
         DistanceCount;
    DescribesParts(lit, dist, bw);
    var tables := TablesBits(LiteralCount(lit), DistanceCount(dist), bw, WidthCodes(HeaderWidths(lit, dist)));
    AtThree(s, pos, HeaderBits(isFinal, 2), tables, TokensBits(lit, dist, ts));
  }

  /** The block's front brings the machine to the symbol loop with exactly these codes. */
  lemma {:induction false} DynamicBlockCarries(s: BitString, pos: nat, out: seq<byte>, lit: seq<nat>, dist: seq<nat>,
      bw: seq<nat>, ts: seq<Token>, isFinal: bool)
    requires Describes(lit, dist, bw) && AllInRange(ts) && At(s, pos, DynamicBlockBits(lit, dist, bw, ts, isFinal))
    ensures Carries(s, pos, out, isFinal, lit, dist, ts)
  {
    hide I.Run, At, Lengths, WidthCodes, HeaderWidths, TablesBits, TokensBits, HeaderBits, DynamicLoop, Describes,
         InLoop, InRange, LiteralCount, DistanceCount, LoopWith, Leads, Carries, AllInRange;
    DescribesParts(lit, dist, bw);
    var tables := TablesBits(LiteralCount(lit), DistanceCount(dist), bw, WidthCodes(HeaderWidths(lit, dist)));
    AtThree(s, pos, HeaderBits(isFinal, 2), tables, TokensBits(lit, dist, ts));
    DynamicStart(s, pos, out, isFinal);
    TokensEnd(lit, dist, ts);
    AtBound(s, pos + 3 + |tables|, TokensBits(lit, dist, ts));
    LengthsParts(lit, dist);
    TablesLead(s, pos + 3, out, isFinal, lit, dist, bw);
    DynamicInLoop(isFinal, lit, dist);
    LoopWithIs(DynamicLoop(isFinal, lit, dist), lit, dist);
    LoopFinal(isFinal, lit, dist);
    LeadsOn(s, I.Config(I.BlockHeader, out, pos), I.Config(I.DynamicHeader(isFinal), out, pos + 3),
            I.Config(DynamicLoop(isFinal, lit, dist), out, pos + 3 + |tables|));
    assert LoopAt(s, pos, out, DynamicLoop(isFinal, lit, dist), pos + 3 + |tables|);
    CarriesAt(s, pos, out, isFinal, lit, dist, ts, DynamicLoop(isFinal, lit, dist), pos + 3 + |tables|);
  }

  // ----- The block the encoder chooses -----

  ghost function WidthLengthsFor(lit: seq<nat>, dist: seq<nat>): (bw: seq<nat>)
    requires |lit| == 286 && |dist| == 30 && Short(lit, dist)
    ensures |bw| == 19
  {
    var codes := WidthCodes(HeaderWidths(lit, dist));
    WidthCodesRoundTrip(HeaderWidths(lit, dist));
    ReadableCodes(codes, []);
    WidthLengths(codes)
  }

  lemma {:induction false} HeaderWidthsShort(lit: seq<nat>, dist: seq<nat>)
    requires |lit| == 286 && |dist| == 30
    requires (forall i :: 0 <= i < 286 ==> lit[i] <= MAX_BITS) && forall i :: 0 <= i < 30 ==> dist[i] <= MAX_BITS
    ensures Short(lit, dist)
  {
    hide LiteralCount, DistanceCount;
  }

  lemma {:induction false} ChosenDescribes(ts: seq<Token>)
    requires AllInRange(ts)
    ensures Short(LiteralLengthsFor(ts), DistanceLengthsFor(ts))
    ensures Describes(LiteralLengthsFor(ts), DistanceLengthsFor(ts),
                      WidthLengthsFor(LiteralLengthsFor(ts), DistanceLengthsFor(ts)))
    ensures AllCoded(LiteralLengthsFor(ts), DistanceLengthsFor(ts), ts)
  {
    hide LiteralLengthsFor, DistanceLengthsFor, Lengths, AllCoded, WidthsCoded, WidthLengths, WidthCodes;
    LengthsFit(ts);
    var lit, dist := LiteralLengthsFor(ts), DistanceLengthsFor(ts);
    HeaderWidthsShort(lit, dist);
    var widths := HeaderWidths(lit, dist);
    WidthCodesRoundTrip(widths);
    ReadableCodes(WidthCodes(widths), []);
    NotEmptyCodes(WidthCodes(widths), widths);
    WidthLengthsFit(WidthCodes(widths));
  }

  lemma {:induction false} NotEmptyCodes(codes: seq<WidthCode>, widths: seq<nat>)
    requires Unpack(codes, []) == widths && widths != []
    ensures codes != []
  {}

  /** The dynamic block for a token sequence. */
  ghost function DynamicBits(ts: seq<Token>, isFinal: bool): BitString
    requires AllInRange(ts)
  {
    ChosenDescribes(ts);
    var lit, dist := LiteralLengthsFor(ts), DistanceLengthsFor(ts);
    DynamicBlockBits(lit, dist, WidthLengthsFor(lit, dist), ts, isFinal)
  }

  lemma {:induction false} DynamicLeads(s: BitString, pos: nat, out: seq<byte>, ts: seq<Token>, chunk: seq<byte>,
      isFinal: bool)
    requires Sound(ts, 0) && Expand(ts, []) == chunk && AllInRange(ts) && At(s, pos, DynamicBits(ts, isFinal))
    ensures Leads(s, I.Config(I.BlockHeader, out, pos),
                  I.Config(After(isFinal), out + chunk, pos + |DynamicBits(ts, isFinal)|))
  {
    hide LiteralLengthsFor, DistanceLengthsFor, Describes, AllCoded, At, Sound, Expand, WidthLengthsFor,
         DynamicBlockBits, Leads, InRange;
    ChosenDescribes(ts);
    var lit, dist := LiteralLengthsFor(ts), DistanceLengthsFor(ts);
    DynamicBlockLeads(s, pos, out, lit, dist, WidthLengthsFor(lit, dist), ts, chunk, isFinal);
  }

  /** The block chosen for a token sequence has the codes whose lengths were chosen for it. */
  lemma {:induction false} DynamicCarries(s: BitString, pos: nat, out: seq<byte>, ts: seq<Token>, isFinal: bool)
    requires AllInRange(ts) && At(s, pos, DynamicBits(ts, isFinal))
    ensures Carries(s, pos, out, isFinal, LiteralLengthsFor(ts), DistanceLengthsFor(ts), ts)
  {
    hide LiteralLengthsFor, DistanceLengthsFor, Describes, AllCoded, At, WidthLengthsFor, DynamicBlockBits, Carries,
         InRange;
    ChosenDescribes(ts);
    var lit, dist := LiteralLengthsFor(ts), DistanceLengthsFor(ts);
    DynamicBlockCarries(s, pos, out, lit, dist, WidthLengthsFor(lit, dist), ts, isFinal);
  }

  // ----- Which headers the decoder accepts -----

  lemma {:induction false} LoopEntered(st: I.State, out: seq<byte>, pos: nat)
    requires st.DynamicCodeLengths? && I.ValidState(st) && |st.allCodeLengths| == st.hlit + st.hdist
    requires I.EnterSymbolLoop(st, out, pos).Next?
    ensures var c := I.EnterSymbolLoop(st, out, pos).config;
            LoopWith(c.state, st.isFinal, st.allCodeLengths[..st.hlit], st.allCodeLengths[st.hlit..])
            && c.out == out && c.pos == pos
  {
    hide SortedEntries, Acceptable, SafePeek;
    var lit := st.allCodeLengths[..st.hlit];
    if |lit| > END_OF_BLOCK && lit[END_OF_BLOCK] > 0 {
      PeekIsEob(lit);
    }
  }

  /** A dynamic block up to its first symbol. */
  ghost function HeaderFor(isFinal: bool, hlit: nat, hdist: nat, n: nat, bw: seq<nat>, codes: seq<WidthCode>): BitString
    requires Describing(hlit, hdist, n, bw, codes)
  {
    HeaderBits(isFinal, 2) + TablesText(hlit, hdist, n, bw, codes)
  }

  ghost predicate Enters(s: BitString, a: I.Config, pos: nat, isFinal: bool, lit: seq<nat>, dist: seq<nat>) {
    exists st: I.State :: LoopWith(st, isFinal, lit, dist) && Leads(s, a, I.Config(st, a.out, pos))
  }

  lemma {:induction false} EntersAt(s: BitString, a: I.Config, st: I.State, pos: nat, isFinal: bool, lit: seq<nat>,
      dist: seq<nat>)
    requires LoopWith(st, isFinal, lit, dist) && Leads(s, a, I.Config(st, a.out, pos))
    ensures Enters(s, a, pos, isFinal, lit, dist)
  {
    hide LoopWith, Leads;
  }

  lemma {:induction false} LeadsWithin(s: BitString, a: I.Config, b: I.Config)
    requires Leads(s, a, b)
    ensures I.ValidConfig(s, a) && I.ValidConfig(s, b)
  {
    hide I.Run, I.ValidState;
  }

  ghost predicate FailsFrom(s: BitString, a: I.Config, e: Error) {
    I.ValidConfig(s, a) && I.Run(s, a) == I.Failed(e)
  }

  lemma {:induction false} FailsAtEnd(s: BitString, a: I.Config, b: I.Config, e: Error)
    requires Leads(s, a, b) && I.Step(s, b) == I.Fail(e)
    ensures FailsFrom(s, a, e)
  {
    hide I.Run, I.Step, I.ValidState;
    I.RunFails(s, b, e);
  }

  /** The exact verdict on a dynamic block's header, whatever codes it describes its widths with: the symbol loop
      is entered, with the canonical codes of both vectors, if both make a code, and otherwise the run fails. */
  lemma {:induction false} HeaderVerdict(s: BitString, pos: nat, out: seq<byte>, isFinal: bool, hlit: nat, hdist: nat,
      n: nat, bw: seq<nat>, codes: seq<WidthCode>)
    requires Describing(hlit, hdist, n, bw, codes)
    requires At(s, pos, HeaderFor(isFinal, hlit, hdist, n, bw, codes))
    requires pos + |HeaderFor(isFinal, hlit, hdist, n, bw, codes)| < |s|
    ensures var a, end := I.Config(I.BlockHeader, out, pos), pos + |HeaderFor(isFinal, hlit, hdist, n, bw, codes)|;
            var lit, dist := Unpack(codes, [])[..hlit], Unpack(codes, [])[hlit..];
            if I.MakesACode(lit) && I.MakesACode(dist)
            then Enters(s, a, end, isFinal, lit, dist)
            else FailsFrom(s, a, BadCodeLengths)
  {
    hide I.Run, I.ValidState, I.MakesACode, At, WidthsCoded, TablesText, HeaderBits, I.EnterSymbolLoop,
         I.ReadLengthRun, Leads, LoopWith, Unpack, AllReadable, OrderSlot;
    var tables := TablesText(hlit, hdist, n, bw, codes);
    AtSplit(s, pos, HeaderBits(isFinal, 2), tables);
    DynamicStart(s, pos, out, isFinal);
    var code := WidthsLead(s, pos + 3, out, isFinal, hlit, hdist, n, bw, codes);
    var a, end := I.Config(I.BlockHeader, out, pos), pos + 3 + |tables|;
    LeadsOn(s, a, I.Config(I.DynamicHeader(isFinal), out, pos + 3),
            I.Config(LengthsState(isFinal, hlit, hdist, code, Unpack(codes, [])), out, end));
    WidthsVerdict(s, a, isFinal, hlit, hdist, code, Unpack(codes, []), end);
  }

  lemma {:induction false} WidthsVerdict(s: BitString, a: I.Config, isFinal: bool, hlit: nat, hdist: nat, code: Code,
      widths: seq<nat>, end: nat)
    requires 257 <= hlit <= 288 && 1 <= hdist <= 30 && |widths| == hlit + hdist && code.peek == 1
    requires Leads(s, a, I.Config(LengthsState(isFinal, hlit, hdist, code, widths), a.out, end))
    ensures if I.MakesACode(widths[..hlit]) && I.MakesACode(widths[hlit..])
            then Enters(s, a, end, isFinal, widths[..hlit], widths[hlit..])
            else FailsFrom(s, a, BadCodeLengths)
  {
    hide I.Run, I.Step, I.MakesACode, I.EnterSymbolLoop, LoopWith, Leads, Enters, FailsFrom;
    var st := LengthsState(isFinal, hlit, hdist, code, widths);
    I.DynamicAcceptedIff(st, a.out, end);
    var c := I.Config(st, a.out, end);
    LeadsWithin(s, a, c);
    I.CodeLengthsCase(s, c);
    if I.MakesACode(widths[..hlit]) && I.MakesACode(widths[hlit..]) {
      LoopEntered(st, a.out, end);
      var next := I.EnterSymbolLoop(st, a.out, end).config;
      StepLeads(s, c, next);
      LeadsOn(s, a, c, next);
      EntersAt(s, a, next.state, end, isFinal, widths[..hlit], widths[hlit..]);
    } else {
      FailsAtEnd(s, a, c, BadCodeLengths);
    }
  }

  // ----- A block of literals without a distance code -----

  /** The widths of a pointer-free block whose one distance length is zero, as section 3.2.7 of RFC 1951 has it. */
  ghost function LiteralWidths(ts: seq<Token>): (w: seq<nat>)
    requires AllInRange(ts)
  {
    LiteralLengthsFor(ts)[..LiteralCount(LiteralLengthsFor(ts))] + [0]
  }

  lemma {:induction false} LiteralWidthsDescribed(ts: seq<Token>)
    requires AllInRange(ts)
    ensures var codes := WidthCodes(LiteralWidths(ts));
            (forall i :: 0 <= i < |codes| ==> codes[i].code < 19)
            && Describing(LiteralCount(LiteralLengthsFor(ts)), 1, WidthCount(WidthLengths(codes)), WidthLengths(codes),
                          codes)
            && Unpack(codes, []) == LiteralWidths(ts)
  {
    hide LiteralLengthsFor, Lengths, WidthsCoded, WidthLengths, WidthCodes, AllCoded, LiteralCount, Unpack,
         AllReadable, Readable, OrderSlot, OrderCount;
    LengthsFit(ts);
    var widths := LiteralWidths(ts);
    WidthCodesRoundTrip(widths);
    ReadableCodes(WidthCodes(widths), []);
    NotEmptyCodes(WidthCodes(widths), widths);
    WidthLengthsFit(WidthCodes(widths));
  }

  /** The block: header, the literals' codewords, end-of-block.  The distance lengths are not looked at. */
  ghost function LiteralsOnly(ts: seq<Token>, isFinal: bool): BitString
    requires AllInRange(ts) && !HasPointer(ts)
  {
    LiteralWidthsDescribed(ts);
    LengthsFit(ts);
    var codes := WidthCodes(LiteralWidths(ts));
    HeaderFor(isFinal, LiteralCount(LiteralLengthsFor(ts)), 1, WidthCount(WidthLengths(codes)), WidthLengths(codes),
              codes)
    + TokensBits(LiteralLengthsFor(ts), DistanceLengthsFor(ts), ts)
  }

  /** Every such block is refused, wherever it stands. */
  lemma {:induction false} LiteralsOnlyRefused(s: BitString, pos: nat, out: seq<byte>, ts: seq<Token>, isFinal: bool)
    requires AllInRange(ts) && !HasPointer(ts) && At(s, pos, LiteralsOnly(ts, isFinal))
    ensures FailsFrom(s, I.Config(I.BlockHeader, out, pos), BadCodeLengths)
  {
    hide At, HeaderFor, TokensBits, Lengths, LiteralLengthsFor, DistanceLengthsFor, WidthLengths, WidthCodes, FailsFrom,
         Enters, AllCoded, Describing, WidthCount, Unpack;
    LiteralWidthsDescribed(ts);
    LengthsFit(ts);
    var lit, widths := LiteralLengthsFor(ts), LiteralWidths(ts);
    var codes := WidthCodes(widths);
    var hlit, bw := LiteralCount(lit), WidthLengths(codes);
    var head, tail := HeaderFor(isFinal, hlit, 1, WidthCount(bw), bw, codes),
        TokensBits(lit, DistanceLengthsFor(ts), ts);
    AtSplit(s, pos, head, tail);
    TokensEnd(lit, DistanceLengthsFor(ts), ts);
    LengthsParts(lit, DistanceLengthsFor(ts));
    AtBound(s, pos + |head|, tail);
    HeaderVerdict(s, pos, out, isFinal, hlit, 1, WidthCount(bw), bw, codes);
    assert widths[hlit..] == [0];
  }

  /** So there is, for every pointer-free token sequence, a string of bytes the decoder refuses. */
  lemma {:induction false} NoDistanceCodeRefused(ts: seq<Token>) returns (data: seq<byte>)
    requires AllInRange(ts) && !HasPointer(ts)
    ensures At(BytesToBits(data), 0, LiteralsOnly(ts, true))
    ensures FailsFrom(BytesToBits(data), I.Init, BadCodeLengths)
  {
    hide At, BytesToBits, LiteralsOnly, FailsFrom;
    var bits := LiteralsOnly(ts, true);
    var padded := bits + ToBits(0, PadTo8(|bits|));
    data := ToBytes(padded);
    FromToBytes(padded);
    AtConcat([], bits);
    AtSplit(padded, 0, bits, ToBits(0, PadTo8(|bits|)));
    AtWhole(padded);
    LiteralsOnlyRefused(padded, 0, [], ts, true);
  }
}
