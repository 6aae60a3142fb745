/** Symbol tables of sections 3.2.5 to 3.2.7 of RFC 1951 (src/symbol.rs). */
module Symbols {
  import opened Bits
  import opened Canonical
  import opened Huffman

  const END_OF_BLOCK: nat := 256
  const WINDOW_SIZE: nat := 32768
  const MIN_MATCH: nat := 3
  const MAX_MATCH: nat := 258
  const MAX_STORED_BLOCK: nat := 0xFFFF

  const BITWIDTH_CODE_ORDER: seq<nat> := [16, 17, 18, 0, 8, 7, 9, 6, 10, 5, 11, 4, 12, 3, 13, 2, 14, 1, 15]

  /** The code-length symbol sent in place `i` of the transmission order. */
  function OrderSlot(i: nat): (slot: nat)
    requires i < 19
    ensures slot < 19
  {
    BITWIDTH_CODE_ORDER[i]
  }

  /** `(base, extra_bits)` for length symbols 257..=285. */
  const LENGTH_TABLE: seq<(nat, nat)> := [
    (3, 0), (4, 0), (5, 0), (6, 0), (7, 0), (8, 0), (9, 0), (10, 0),
    (11, 1), (13, 1), (15, 1), (17, 1), (19, 2), (23, 2), (27, 2), (31, 2),
    (35, 3), (43, 3), (51, 3), (59, 3), (67, 4), (83, 4), (99, 4), (115, 4),
    (131, 5), (163, 5), (195, 5), (227, 5), (258, 0)]

  /** `(base, extra_bits)` for distance symbols 0..=29. */
  const DISTANCE_TABLE: seq<(nat, nat)> := [
    (1, 0), (2, 0), (3, 0), (4, 0), (5, 1), (7, 1), (9, 2), (13, 2), (17, 3), (25, 3),
    (33, 4), (49, 4), (65, 5), (97, 5), (129, 6), (193, 6), (257, 7), (385, 7), (513, 8), (769, 8),
    (1025, 9), (1537, 9), (2049, 10), (3073, 10), (4097, 11), (6145, 11), (8193, 12), (12289, 12),
    (16385, 13), (24577, 13)]

  /** Consecutive rows leave no gap: the next base is within reach of this row's extra bits. */
  ghost predicate Reaches(row: (nat, nat), next: (nat, nat)) {
    row.0 < next.0 <= row.0 + Pow2(row.1) && row.1 <= 13
  }

  lemma {:induction false} LengthRow(i: nat)
    requires i < 28
    ensures Reaches(LENGTH_TABLE[i], LENGTH_TABLE[i + 1])
  {
    Pow2Values();
    if i < 8 {
      assert i == 0 || i == 1 || i == 2 || i == 3 || i == 4 || i == 5 || i == 6 || i == 7;
    } else if i < 16 {
      assert i == 8 || i == 9 || i == 10 || i == 11 || i == 12 || i == 13 || i == 14 || i == 15;
    } else if i < 24 {
      assert i == 16 || i == 17 || i == 18 || i == 19 || i == 20 || i == 21 || i == 22 || i == 23;
    } else {
      assert i == 24 || i == 25 || i == 26 || i == 27;
    }
  }

  lemma {:induction false} DistanceRow(i: nat)
    requires i < 29
    ensures Reaches(DISTANCE_TABLE[i], DISTANCE_TABLE[i + 1])
  {
    Pow2Values();
    if i < 8 {
      assert i == 0 || i == 1 || i == 2 || i == 3 || i == 4 || i == 5 || i == 6 || i == 7;
    } else if i < 16 {
      assert i == 8 || i == 9 || i == 10 || i == 11 || i == 12 || i == 13 || i == 14 || i == 15;
    } else if i < 24 {
      assert i == 16 || i == 17 || i == 18 || i == 19 || i == 20 || i == 21 || i == 22 || i == 23;
    } else {
      assert i == 24 || i == 25 || i == 26 || i == 27 || i == 28;
    }
  }

  /** No distance symbol reaches further back than the window. */
  lemma {:induction false} DistanceAtMostWindow(i: nat, extra: nat)
    requires i < 30 && extra < Pow2(DISTANCE_TABLE[i].1)
    ensures 1 <= DISTANCE_TABLE[i].0 + extra <= WINDOW_SIZE && DISTANCE_TABLE[i].1 <= 13
  {
    Pow2Values();
    if i < 8 {
      assert i == 0 || i == 1 || i == 2 || i == 3 || i == 4 || i == 5 || i == 6 || i == 7;
    } else if i < 16 {
      assert i == 8 || i == 9 || i == 10 || i == 11 || i == 12 || i == 13 || i == 14 || i == 15;
    } else if i < 24 {
      assert i == 16 || i == 17 || i == 18 || i == 19 || i == 20 || i == 21 || i == 22 || i == 23;
    } else {
      assert i == 24 || i == 25 || i == 26 || i == 27 || i == 28 || i == 29;
    }
  }

  /** Scanning down from row `n - 1`: the first row whose base does not exceed `v`. */
  function RowOf(table: seq<(nat, nat)>, v: nat, n: nat): (i: nat)
    requires 0 < n <= |table| && table[0].0 <= v
    ensures i < n && table[i].0 <= v && (i + 1 < n ==> v < table[i + 1].0)
  {
    if table[n - 1].0 <= v then n - 1 else RowOf(table, v, n - 1)
  }

  /** A value as a symbol's row and the extra bits that follow it. */
  datatype EncodedSymbol = EncodedSymbol(code: nat, extraBits: nat, extra: nat)

  function LengthSymbol(length: nat): (e: EncodedSymbol)
    requires MIN_MATCH <= length <= MAX_MATCH
  {
    var i := RowOf(LENGTH_TABLE, length, 29);
    EncodedSymbol(257 + i, LENGTH_TABLE[i].1, length - LENGTH_TABLE[i].0)
  }

  function DistanceSymbol(distance: nat): (e: EncodedSymbol)
    requires 1 <= distance <= WINDOW_SIZE
  {
    var i := RowOf(DISTANCE_TABLE, distance, 30);
    EncodedSymbol(i, DISTANCE_TABLE[i].1, distance - DISTANCE_TABLE[i].0)
  }

  /** Every match length 3..258 is a base plus extra bits that fit, 258 included. */
  lemma {:induction false} LengthRoundTrip(length: nat)
    requires MIN_MATCH <= length <= MAX_MATCH
    ensures var e := LengthSymbol(length);
            257 <= e.code <= 285 && e.extraBits <= 5 && e.extra < Pow2(e.extraBits)
            && LENGTH_TABLE[e.code - 257] == (length - e.extra, e.extraBits)
            && (length == 258 <==> e.code == 285)
  {
    var i := RowOf(LENGTH_TABLE, length, 29);
    if i < 28 {
      LengthRow(i);
      ExtraBitsBound(i);
    }
  }

  /** No length symbol stands for more than the longest match. */
  lemma {:induction false} LengthAtMostMatch(i: nat, extra: nat)
    requires i < 29 && extra < Pow2(LENGTH_TABLE[i].1)
    ensures LENGTH_TABLE[i].0 + extra <= MAX_MATCH
  {
    Pow2Values();
    if i < 28 {
      LengthReach(i);
    }
  }

  lemma {:induction false} LengthReach(i: nat)
    requires i < 28
    ensures LENGTH_TABLE[i].0 + Pow2(LENGTH_TABLE[i].1) <= MAX_MATCH + 1
  {
    Pow2Values();
    if i < 14 {
      assert i == 0 || i == 1 || i == 2 || i == 3 || i == 4 || i == 5 || i == 6 || i == 7 || i == 8 || i == 9
          || i == 10 || i == 11 || i == 12 || i == 13;
    } else {
      assert i == 14 || i == 15 || i == 16 || i == 17 || i == 18 || i == 19 || i == 20 || i == 21 || i == 22
          || i == 23 || i == 24 || i == 25 || i == 26 || i == 27;
    }
  }

  lemma {:induction false} ExtraBitsBound(i: nat)
    requires i < 29
    ensures LENGTH_TABLE[i].1 <= 5
  {
    if i < 14 {
      assert i == 0 || i == 1 || i == 2 || i == 3 || i == 4 || i == 5 || i == 6 || i == 7 || i == 8 || i == 9
          || i == 10 || i == 11 || i == 12 || i == 13;
    } else {
      assert i == 14 || i == 15 || i == 16 || i == 17 || i == 18 || i == 19 || i == 20 || i == 21 || i == 22
          || i == 23 || i == 24 || i == 25 || i == 26 || i == 27 || i == 28;
    }
  }

  lemma {:induction false} DistanceRoundTrip(distance: nat)
    requires 1 <= distance <= WINDOW_SIZE
    ensures var e := DistanceSymbol(distance);
            e.code < 30 && e.extraBits <= 13 && e.extra < Pow2(e.extraBits)
            && DISTANCE_TABLE[e.code] == (distance - e.extra, e.extraBits)
  {
    var i := RowOf(DISTANCE_TABLE, distance, 30);
    if i < 29 {
      DistanceRow(i);
    } else {
      Pow2Values();
    }
  }

  method LengthToSymbol(length: nat) returns (e: EncodedSymbol)
    requires MIN_MATCH <= length <= MAX_MATCH
    ensures e == LengthSymbol(length)
  {
    for n := |LENGTH_TABLE| downto 0
      invariant n > 0 && RowOf(LENGTH_TABLE, length, n) == RowOf(LENGTH_TABLE, length, 29)
    {
      if length >= LENGTH_TABLE[n].0 {
        return EncodedSymbol(257 + n, LENGTH_TABLE[n].1, length - LENGTH_TABLE[n].0);
      }
    }
  }

  method DistanceToSymbol(distance: nat) returns (e: EncodedSymbol)
    requires 1 <= distance <= WINDOW_SIZE
    ensures e == DistanceSymbol(distance)
  {
    for n := |DISTANCE_TABLE| downto 0
      invariant n > 0 && RowOf(DISTANCE_TABLE, distance, n) == RowOf(DISTANCE_TABLE, distance, 30)
    {
      if distance >= DISTANCE_TABLE[n].0 {
        return EncodedSymbol(n, DISTANCE_TABLE[n].1, distance - DISTANCE_TABLE[n].0);
      }
    }
  }

  // ----- The fixed codes -----

  function FixedWidth(symbol: nat): nat {
    if symbol <= 143 then 8 else if symbol <= 255 then 9 else if symbol <= 279 then 7 else 8
  }

  function FixedLiteralLengths(): (l: seq<nat>)
    ensures |l| == 288 && forall i :: 0 <= i < 288 ==> l[i] == FixedWidth(i)
  {
    seq(288, (i: nat) => FixedWidth(i))
  }

  function FixedDistanceLengths(): (l: seq<nat>)
    ensures |l| == 30 && forall i :: 0 <= i < 30 ==> l[i] == 5
  {
    seq(30, (i: nat) => 5)
  }

  method FixedLiteralCodeLengths() returns (lengths: array<nat>)
    ensures fresh(lengths) && lengths[..] == FixedLiteralLengths()
  {
    lengths := new nat[288](_ => 0);
    for index := 0 to 288
      invariant forall i :: 0 <= i < index ==> lengths[i] == FixedWidth(i)
    {
      lengths[index] := if index <= 143 then 8 else if index <= 255 then 9 else if index <= 279 then 7 else 8;
    }
  }

  lemma {:induction false} KraftRange(lengths: seq<nat>, a: nat, b: nat, w: nat)
    requires a <= b <= |lengths| && forall i :: 0 <= i < |lengths| ==> lengths[i] <= MAX_BITS
    requires 1 <= w <= MAX_BITS && forall i :: a <= i < b ==> lengths[i] == w
    ensures Kraft(lengths, b) == Kraft(lengths, a) + (b - a) * Pow2(MAX_BITS - w)
    decreases b
  {
    hide Pow2;
    var each := Pow2(MAX_BITS - w);
    if a < b {
      KraftRange(lengths, a, b - 1, w);
      assert Kraft(lengths, b) == Kraft(lengths, b - 1) + each;
      MulDistributes(b - 1 - a, 1, each);
      assert (b - 1 - a) + 1 == b - a;
    }
  }

  /** The fixed literal/length code is complete ... */
  lemma {:induction false} FixedLiteralAccepted(lit: seq<nat>)
    requires lit == FixedLiteralLengths()
    ensures |lit| == 288 && (forall i :: 0 <= i < 288 ==> 1 <= lit[i] <= MAX_BITS)
    ensures Kraft(lit, 288) == 32768 && Acceptable(lit)
  {
    Pow2Values();
    assert forall i :: 0 <= i < 288 ==> lit[i] == FixedWidth(i);
    KraftRange(lit, 0, 144, 8);
    assert Kraft(lit, 144) == 144 * 128;
    KraftRange(lit, 144, 256, 9);
    assert Kraft(lit, 256) == 144 * 128 + 112 * 64;
    KraftRange(lit, 256, 280, 7);
    assert Kraft(lit, 280) == 144 * 128 + 112 * 64 + 24 * 256;
    KraftRange(lit, 280, 288, 8);
    KraftAccepts(lit);
  }

  /** ... and the fixed distance code leaves two of its 32 codewords unused.  Both are accepted. */
  lemma {:induction false} FixedDistanceAccepted(dist: seq<nat>)
    requires dist == FixedDistanceLengths()
    ensures |dist| == 30 && (forall i :: 0 <= i < 30 ==> 1 <= dist[i] <= MAX_BITS)
    ensures Kraft(dist, 30) == 30720 && Acceptable(dist)
  {
    Pow2Values();
    KraftRange(dist, 0, 30, 5);
    assert Kraft(dist, 30) == 30 * 1024;
    KraftAccepts(dist);
  }

  lemma {:induction false} KraftAccepts(lengths: seq<nat>)
    requires |lengths| > 0 && forall i :: 0 <= i < |lengths| ==> 1 <= lengths[i] <= MAX_BITS
    requires Kraft(lengths, |lengths|) <= 32768
    ensures Acceptable(lengths)
  {
    Pow2Values();
    assert lengths[0] > 0;
    AcceptableIff(lengths);
  }
}
