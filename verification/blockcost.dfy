/** The code lengths the encoder chooses make its blocks as short as code lengths can.

    Package-merge minimises a sum of frequency times length; here that sum is the number of bits a block's
    tokens take, so no other admissible lengths encode the same tokens in fewer bits. */
module BlockCost {
  import opened Bits
  import opened Canonical
  import opened Huffman
  import opened Symbols
  import opened Lz77
  import opened RunLengths
  import opened PackageMerge
  import opened Optimality
  import opened CodeLengths
  import opened Blocks
  import opened DynamicBlocks
  import I = Inflate

  // ----- Sums of frequency times length -----

  lemma {:induction false} CostBump(f: seq<nat>, s: nat, l: seq<nat>, n: nat)
    requires s < |f| == |l| && n <= |f|
    ensures Cost(Bump(f, s), l, n) == Cost(f, l, n) + if s < n then l[s] else 0
    decreases n
  {
    hide Times;
    if n > 0 {
      CostBump(f, s, l, n - 1);
      TimesSucc(f[n - 1], l[n - 1]);
    }
  }

  lemma {:induction false} TimesSucc(a: nat, b: nat)
    ensures Times(a + 1, b) == Times(a, b) + b
  {}

  lemma {:induction false} CostNone(f: seq<nat>, l: seq<nat>, n: nat)
    requires |f| == |l| && n <= |f| && forall i :: 0 <= i < n ==> f[i] == 0
    ensures Cost(f, l, n) == 0
  {
    if n > 0 { CostNone(f, l, n - 1); }
  }

  lemma {:induction false} CostPointwise(f: seq<nat>, a: seq<nat>, b: seq<nat>, n: nat)
    requires |f| == |a| == |b| && n <= |f| && forall i :: 0 <= i < n && f[i] > 0 ==> a[i] <= b[i]
    ensures Cost(f, a, n) <= Cost(f, b, n)
  {
    hide Times;
    if n > 0 {
      CostPointwise(f, a, b, n - 1);
      TimesGrows(f[n - 1], a[n - 1], b[n - 1]);
    }
  }

  lemma {:induction false} TimesGrows(f: nat, a: nat, b: nat)
    requires f > 0 ==> a <= b
    ensures Times(f, a) <= Times(f, b)
  {
    if f > 0 { MulGrows(f, a, b - a); }
  }

  lemma {:induction false} MulGrows(f: nat, a: nat, d: nat)
    ensures f * a <= f * (a + d)
  {
    assert f * (a + d) == f * a + f * d;
  }

  lemma {:induction false} UsedIsCounted(f: seq<nat>, n: nat, s: nat)
    requires s < n <= |f| && f[s] > 0
    ensures |Leaves(f, n)| > 0
  {
    if s < n - 1 { UsedIsCounted(f, n - 1, s); }
  }

  /** The lengths chosen are the best there are, however few symbols are used. */
  lemma {:induction false} ChosenLeast(f: seq<nat>, cap: nat, lengths: seq<nat>)
    requires 1 <= cap <= MAX_BITS && |f| <= Pow2(cap) && Admissible(f, cap, lengths)
    ensures Cost(f, LimitedLengths(f, cap), |f|) <= Cost(f, lengths, |f|)
  {
    hide LimitedLengths, Cost, Kraft, Leaves;
    UsedAtMost(f);
    if |Used(f)| >= 2 {
      LimitedLengthsOptimal(f, cap, lengths);
    } else {
      LimitedLengthsValid(f, cap);
      var w := LimitedLengths(f, cap);
      forall s | 0 <= s < |f| && f[s] > 0 ensures w[s] <= lengths[s] {
        UsedIsCounted(f, |f|, s);
      }
      CostPointwise(f, w, lengths, |f|);
    }
  }

  // ----- The bits of a token sequence -----

  /** The extra bits of the tokens, whatever the code lengths. */
  ghost function ExtraBits(ts: seq<Token>): nat
    requires AllInRange(ts)
  {
    if ts == [] then 0 else ExtraBits(ts[..|ts| - 1]) + ExtraOf(ts[|ts| - 1])
  }

  ghost function ExtraOf(t: Token): nat
    requires InRange(t)
  {
    match t
    case Literal(_) => 0
    case Pointer(length, distance) =>
      LengthRoundTrip(length);
      DistanceRoundTrip(distance);
      LengthSymbol(length).extraBits + DistanceSymbol(distance).extraBits
  }

  lemma {:induction false} TokenLength(lit: seq<nat>, dist: seq<nat>, t: Token)
    requires Lengths(lit, dist) && InRange(t)
    ensures |TokenBits(lit, dist, t)|
            == lit[LiteralSymbol(t)] + (if t.Pointer? then dist[DistanceCode(t)] else 0) + ExtraOf(t)
  {
    hide LengthSymbol, DistanceSymbol, ToBits, Word, SortedEntries, Acceptable;
    if t.Pointer? {
      LengthRoundTrip(t.length);
      DistanceRoundTrip(t.distance);
    }
  }

  lemma {:induction false} TokensLast(lit: seq<nat>, dist: seq<nat>, ts: seq<Token>, t: Token)
    requires Lengths(lit, dist) && AllInRange(ts) && InRange(t)
    ensures AllInRange(ts + [t])
    ensures |TokensBits(lit, dist, ts + [t])| == |TokensBits(lit, dist, ts)| + |TokenBits(lit, dist, t)|
  {
    hide Lengths, TokenBits, InRange, Word;
    if ts == [] {
      assert ts + [t] == [t] && [t][1..] == [];
    } else {
      assert (ts + [t])[1..] == ts[1..] + [t];
      TokensLast(lit, dist, ts[1..], t);
    }
  }

  /** The length of a token sequence's bits: a cost of its frequencies, and the extra bits. */
  lemma {:induction false} TokensLength(lit: seq<nat>, dist: seq<nat>, ts: seq<Token>)
    requires |lit| == 286 && Lengths(lit, dist) && AllInRange(ts)
    ensures |TokensBits(lit, dist, ts)|
            == Cost(LiteralCounts(ts), lit, 286) + Cost(DistanceCounts(ts), dist, 30) + ExtraBits(ts)
               + lit[END_OF_BLOCK]
  {
    hide TokenBits, InRange, Word, Cost, LiteralSymbol, DistanceCode, ExtraOf, TokensBits, Acceptable, Bump;
    if ts == [] {
      NoTokensBits(lit, dist);
      CostNone(LiteralCounts(ts), lit, 286);
      CostNone(DistanceCounts(ts), dist, 30);
    } else {
      var front, t := ts[..|ts| - 1], ts[|ts| - 1];
      assert ts == front + [t];
      TokensLength(lit, dist, front);
      TokensLast(lit, dist, front, t);
      TokenLength(lit, dist, t);
      CostBump(LiteralCounts(front), LiteralSymbol(t), lit, 286);
      if t.Pointer? { CostBump(DistanceCounts(front), DistanceCode(t), dist, 30); }
    }
  }

  /** Only symbols the tokens use are counted. */
  lemma {:induction false} CountedIsCoded(lit: seq<nat>, dist: seq<nat>, ts: seq<Token>, s: nat)
    requires 286 <= |lit| && |dist| == 30 && AllInRange(ts) && AllCoded(lit, dist, ts)
    ensures s < 286 && LiteralCounts(ts)[s] > 0 ==> lit[s] > 0 && s != END_OF_BLOCK
    ensures s < 30 && DistanceCounts(ts)[s] > 0 ==> dist[s] > 0
  {
    hide InRange, LengthSymbol, DistanceSymbol;
    if ts != [] {
      var front, t := ts[..|ts| - 1], ts[|ts| - 1];
      CountedIsCoded(lit, dist, front, s);
      TokenSymbolCoded(lit, dist, t);
      assert Coded(lit, dist, ts[|ts| - 1]);
    }
  }

  lemma {:induction false} TokenSymbolCoded(lit: seq<nat>, dist: seq<nat>, t: Token)
    requires 286 <= |lit| && |dist| == 30
    ensures Coded(lit, dist, t) ==>
              InRange(t) && lit[LiteralSymbol(t)] > 0 && LiteralSymbol(t) != END_OF_BLOCK
              && (t.Pointer? ==> dist[DistanceCode(t)] > 0)
  {
    hide LengthSymbol, DistanceSymbol;
    if t.Pointer? && InRange(t) {
      LengthRoundTrip(t.length);
      DistanceRoundTrip(t.distance);
    }
  }

  /** End-of-block is not among the counts, so putting it in adds its length once. */
  lemma {:induction false} EndCounted(f: seq<nat>, lit: seq<nat>, n: nat)
    requires |f| == |lit| == 286 && n <= 286 && f[END_OF_BLOCK] == 0
    ensures Cost(f[END_OF_BLOCK := 1], lit, n) == Cost(f, lit, n) + if END_OF_BLOCK < n then lit[END_OF_BLOCK] else 0
  {
    var g := f[END_OF_BLOCK := 1];
    assert g == Bump(f, END_OF_BLOCK);
    CostBump(f, END_OF_BLOCK, lit, n);
  }

  lemma {:induction false} LiteralLeast(ts: seq<Token>, lit: seq<nat>, dist: seq<nat>)
    requires |lit| == 286 && Lengths(lit, dist) && AllInRange(ts) && AllCoded(lit, dist, ts)
    ensures var best := LiteralLengthsFor(ts);
            Cost(LiteralCounts(ts), best, 286) + best[END_OF_BLOCK]
            <= Cost(LiteralCounts(ts), lit, 286) + lit[END_OF_BLOCK]
  {
    hide Cost, Kraft, LimitedLengths, Acceptable, AllCoded, LiteralCounts, InRange;
    var f, g := LiteralCounts(ts), LiteralFrequencies(ts);
    Pow2Values();
    AcceptableIff(lit);
    forall s | 0 <= s < 286 && g[s] > 0 ensures lit[s] > 0 {
      CountedIsCoded(lit, dist, ts, s);
    }
    CountedIsCoded(lit, dist, ts, END_OF_BLOCK);
    ChosenLeast(g, MAX_BITS, lit);
    EndCounted(f, lit, 286);
    EndCounted(f, LiteralLengthsFor(ts), 286);
  }

  lemma {:induction false} DistanceLeast(ts: seq<Token>, lit: seq<nat>, dist: seq<nat>)
    requires |lit| == 286 && Lengths(lit, dist) && AllInRange(ts) && AllCoded(lit, dist, ts)
    ensures Cost(DistanceCounts(ts), DistanceLengthsFor(ts), 30) <= Cost(DistanceCounts(ts), dist, 30)
  {
    hide Cost, Kraft, LimitedLengths, Acceptable, AllCoded, DistanceCounts, InRange, HasPointer;
    var f := DistanceCounts(ts);
    if HasPointer(ts) {
      Pow2Values();
      AcceptableIff(dist);
      forall s | 0 <= s < 30 && f[s] > 0 ensures dist[s] > 0 {
        CountedIsCoded(lit, dist, ts, s);
      }
      ChosenLeast(f, MAX_BITS, dist);
    } else {
      NoPointerCounts(ts);
      CostNone(f, DistanceLengthsFor(ts), 30);
    }
  }

  lemma {:induction false} NoPointerCounts(ts: seq<Token>)
    requires AllInRange(ts) && !HasPointer(ts)
    ensures forall s :: 0 <= s < 30 ==> DistanceCounts(ts)[s] == 0
  {
    if ts != [] { NoPointerCounts(ts[..|ts| - 1]); }
  }

  /** No code lengths encode the tokens in fewer bits than the ones chosen for them. */
  lemma {:induction false} BlockShortest(ts: seq<Token>, lit: seq<nat>, dist: seq<nat>)
    requires |lit| == 286 && Lengths(lit, dist) && AllInRange(ts) && AllCoded(lit, dist, ts)
    ensures Lengths(LiteralLengthsFor(ts), DistanceLengthsFor(ts))
    ensures |TokensBits(LiteralLengthsFor(ts), DistanceLengthsFor(ts), ts)| <= |TokensBits(lit, dist, ts)|
  {
    hide Cost, LiteralLengthsFor, DistanceLengthsFor, TokensBits, AllCoded, LiteralCounts, DistanceCounts, InRange,
         Acceptable;
    LengthsFit(ts);
    TokensLength(LiteralLengthsFor(ts), DistanceLengthsFor(ts), ts);
    TokensLength(lit, dist, ts);
    LiteralLeast(ts, lit, dist);
    DistanceLeast(ts, lit, dist);
  }

  ghost predicate UsesLiteral(ts: seq<Token>, s: nat)
    requires AllInRange(ts)
  {
    exists i :: 0 <= i < |ts| && LiteralSymbol(ts[i]) == s
  }

  ghost predicate UsesDistance(ts: seq<Token>, s: nat)
    requires AllInRange(ts)
  {
    exists i :: 0 <= i < |ts| && ts[i].Pointer? && DistanceCode(ts[i]) == s
  }

  lemma {:induction false} CountedIsUsed(ts: seq<Token>, s: nat)
    requires AllInRange(ts)
    ensures s < 286 && LiteralCounts(ts)[s] > 0 ==> UsesLiteral(ts, s)
    ensures s < 30 && DistanceCounts(ts)[s] > 0 ==> UsesDistance(ts, s)
  {
    hide InRange, LiteralSymbol, DistanceCode;
    if ts != [] {
      var n := |ts| - 1;
      var front := ts[..n];
      CountedIsUsed(front, s);
      if UsesLiteral(front, s) {
        var i :| 0 <= i < n && LiteralSymbol(front[i]) == s;
        assert LiteralSymbol(ts[i]) == s;
      }
      if UsesDistance(front, s) {
        var i :| 0 <= i < n && front[i].Pointer? && DistanceCode(front[i]) == s;
        assert ts[i].Pointer? && DistanceCode(ts[i]) == s;
      }
      assert ts[n] == ts[|ts| - 1];
    }
  }

  /** The symbols that get codewords are those the tokens use, end-of-block, and, without pointers, distance
      symbol 0, whose codeword then has one bit. */
  lemma {:induction false} UsedCoded(ts: seq<Token>, s: nat)
    requires AllInRange(ts)
    ensures s < 286 ==> (LiteralLengthsFor(ts)[s] > 0 <==> s == 256 || UsesLiteral(ts, s))
    ensures s < 30 && HasPointer(ts) ==> (DistanceLengthsFor(ts)[s] > 0 <==> UsesDistance(ts, s))
    ensures s < 30 && !HasPointer(ts) ==> DistanceLengthsFor(ts)[s] == if s == 0 then 1 else 0
  {
    hide LimitedLengths, LiteralCounts, DistanceCounts, HasPointer, InRange, LiteralSymbol, DistanceCode, Kraft;
    Pow2Values();
    var f, g := LiteralFrequencies(ts), DistanceFrequencies(ts);
    UsedAtMost(f);
    UsedAtMost(g);
    LimitedLengthsValid(f, MAX_BITS);
    LimitedLengthsValid(g, MAX_BITS);
    CountedIsUsed(ts, s);
    if s < 286 && UsesLiteral(ts, s) {
      var i :| 0 <= i < |ts| && LiteralSymbol(ts[i]) == s;
      TokenCounted(ts, i);
    }
    if s < 30 && UsesDistance(ts, s) {
      var i :| 0 <= i < |ts| && ts[i].Pointer? && DistanceCode(ts[i]) == s;
      TokenCounted(ts, i);
    }
    if !HasPointer(ts) {
      NoPointerCounts(ts);
      OneLeaf(g, 30);
    }
  }

  /** Frequencies of which only the first is not zero make one leaf. */
  lemma {:induction false} OneLeaf(f: seq<nat>, n: nat)
    requires n <= |f| && forall s :: 0 < s < |f| ==> f[s] == 0
    ensures |Leaves(f, n)| == if n > 0 && f[0] > 0 then 1 else 0
  {
    if n > 0 { OneLeaf(f, n - 1); }
  }

  // ----- The bits of a header's code lengths -----

  ghost function ExtraInCodes(codes: seq<WidthCode>): nat {
    if codes == [] then 0 else codes[0].extraBits + ExtraInCodes(codes[1..])
  }

  lemma {:induction false} CountsFront(c: WidthCode, rest: seq<WidthCode>)
    requires c.code < 19 && forall i :: 0 <= i < |rest| ==> rest[i].code < 19
    ensures forall i :: 0 <= i < |[c] + rest| ==> ([c] + rest)[i].code < 19
    ensures WidthCounts([c] + rest) == Bump(WidthCounts(rest), c.code)
    decreases |rest|
  {
    var all := [c] + rest;
    if rest == [] {
      assert all[..0] == [] && WidthCounts(all[..0]) == I.Repeat(0, 19);
    } else {
      var front, last := rest[..|rest| - 1], rest[|rest| - 1];
      assert all[..|all| - 1] == [c] + front;
      CountsFront(c, front);
      assert Bump(Bump(WidthCounts(front), c.code), last.code) == Bump(Bump(WidthCounts(front), last.code), c.code);
    }
  }

  lemma {:induction false} CodesLength(bw: seq<nat>, codes: seq<WidthCode>)
    requires WidthsCoded(bw, codes)
    ensures |CodesBits(bw, codes)| == Cost(WidthCounts(codes), bw, 19) + ExtraInCodes(codes)
    decreases |codes|
  {
    hide Cost, Word, Acceptable, WidthCounts, SortedEntries, ToBits;
    if codes == [] {
      NoWidthCounts();
      CostNone(WidthCounts([]), bw, 19);
    } else {
      var c, rest := codes[0], codes[1..];
      assert codes == [c] + rest;
      assert WidthsCoded(bw, rest);
      CodesLength(bw, rest);
      CountsFront(c, rest);
      CostBump(WidthCounts(rest), c.code, bw, 19);
    }
  }

  lemma {:induction false} NoWidthCounts()
    ensures forall i :: 0 <= i < 19 ==> WidthCounts([])[i] == 0
  {}

  lemma {:induction false} WidthCountedIsCoded(bw: seq<nat>, codes: seq<WidthCode>, s: nat)
    requires WidthsCoded(bw, codes) && s < 19 && WidthCounts(codes)[s] > 0
    ensures bw[s] > 0
    decreases |codes|
  {
    hide Acceptable;
    if codes != [] && codes[|codes| - 1].code != s {
      WidthCountedIsCoded(bw, codes[..|codes| - 1], s);
    }
  }

  /** No code of at most 7 bits writes the code lengths' codes in fewer bits than the one chosen for them. */
  lemma {:induction false} HeaderShortest(codes: seq<WidthCode>, bw: seq<nat>)
    requires codes != [] && WidthsCoded(bw, codes)
    ensures WidthsCoded(WidthLengths(codes), codes)
    ensures |CodesBits(WidthLengths(codes), codes)| <= |CodesBits(bw, codes)|
  {
    hide Cost, Kraft, LimitedLengths, Acceptable, CodesBits, WidthCounts;
    WidthLengthsFit(codes);
    CodesLength(WidthLengths(codes), codes);
    CodesLength(bw, codes);
    Pow2Values();
    AcceptableIff(bw);
    forall s | 0 <= s < 19 && WidthCounts(codes)[s] > 0 ensures bw[s] > 0 {
      WidthCountedIsCoded(bw, codes, s);
    }
    ChosenLeast(WidthCounts(codes), 7, bw);
  }
}
