/** The fixed numbers of the formats, by the rules they follow rather than by their tables: bit order, the
    numbering of codewords, the symbol tables, the checksums' constants and the match finder's hash. */
module Conventions {
  import opened Bits
  import opened Canonical
  import opened Huffman
  import opened Symbols
  import opened Lz77
  import Crc
  import Adler

  // ----- Bit order -----

  /** Bit `i` of a number. */
  ghost predicate Bit(v: nat, i: nat) {
    v / Pow2(i) % 2 == 1
  }

  lemma {:induction false} HalfBit(v: nat, i: nat)
    ensures Bit(v / 2, i) == Bit(v, i + 1)
  {
    DivMod(v, Pow2(i + 1));
    HalfThenShift(v, Pow2(i));
  }

  lemma {:induction false} HalfThenShift(v: nat, q: nat)
    requires q > 0
    ensures v / 2 / q == v / (2 * q)
  {
    var a := v / (2 * q);
    var r := v - 2 * q * a;
    assert v == (2 * q) * a + v % (2 * q);
    assert v / 2 == q * a + r / 2;
    DivModUnique(v / 2, q, a, r / 2);
  }

  /** Fields go out least significant bit first. */
  lemma {:induction false} FieldOrder(v: nat, w: nat, i: nat)
    requires i < w
    ensures ToBits(v, w)[i] == Bit(v, i)
  {
    if i > 0 {
      FieldOrder(v / 2, w - 1, i - 1);
      HalfBit(v, i - 1);
    }
  }

  /** Codewords go out most significant bit first. */
  lemma {:induction false} CodewordOrder(v: nat, w: nat, i: nat)
    requires i < w
    ensures MsbBits(v, w)[i] == Bit(v, w - 1 - i)
  {
    if i < w - 1 {
      CodewordOrder(v / 2, w - 1, i);
      HalfBit(v, w - 2 - i);
    }
  }

  /** Bytes go out in order, each least significant bit first. */
  lemma {:induction false} ByteOrder(bytes: seq<byte>, k: nat, i: nat)
    requires k < |bytes| && i < 8
    ensures BytesToBits(bytes)[8 * k + i] == Bit(bytes[k], i)
  {
    hide ToBits, BytesToBits, Bit;
    ByteAt(bytes, k);
    FieldOrder(bytes[k], 8, i);
    assert BytesToBits(bytes)[8 * k..8 * k + 8][i] == BytesToBits(bytes)[8 * k + i];
  }

  // ----- The numbering of codewords (section 3.2.2 of RFC 1951) -----

  /** The room taken, in units of 2^-15, by the codewords of the symbols below `n` that come before symbol `s`:
      those of shorter codewords, and those of equally long ones and smaller symbols. */
  ghost function RoomBefore(lengths: seq<nat>, s: nat, n: nat): nat
    requires s < |lengths| && n <= |lengths| && forall i :: 0 <= i < |lengths| ==> lengths[i] <= MAX_BITS
  {
    if n == 0 then 0
    else
      RoomBefore(lengths, s, n - 1)
      + if ComesBefore(lengths, n - 1, s) then Pow2(MAX_BITS - lengths[n - 1]) else 0
  }

  ghost predicate ComesBefore(lengths: seq<nat>, t: nat, s: nat)
    requires s < |lengths| && t < |lengths|
  {
    0 < lengths[t] && (lengths[t] < lengths[s] || (lengths[t] == lengths[s] && t < s))
  }

  /** The room of the listed entries that come before `e`. */
  ghost function ListedBefore(es: seq<Entry>, e: Entry, n: nat): nat
    requires WidthsOk(es) && n <= |es|
  {
    if n == 0 then 0
    else ListedBefore(es, e, n - 1) + if Before(es[n - 1], e) then Pow2(MAX_BITS - es[n - 1].width) else 0
  }

  lemma {:induction false} ListedPrefix(a: seq<Entry>, b: seq<Entry>, e: Entry, n: nat)
    requires WidthsOk(a) && WidthsOk(b) && n <= |a| && n <= |b| && forall i :: 0 <= i < n ==> a[i] == b[i]
    ensures ListedBefore(a, e, n) == ListedBefore(b, e, n)
  {
    hide Pow2, Before;
    if n > 0 { ListedPrefix(a, b, e, n - 1); }
  }

  lemma {:induction false} ListedInsert(es: seq<Entry>, x: Entry, e: Entry)
    requires WidthsOk(es) && 1 <= x.width <= MAX_BITS
    ensures WidthsOk(Insert(es, x))
    ensures ListedBefore(Insert(es, x), e, |es| + 1)
            == ListedBefore(es, e, |es|) + if Before(x, e) then Pow2(MAX_BITS - x.width) else 0
  {
    hide Pow2, Before;
    TotalInsert(es, x);
    var r := Insert(es, x);
    if es == [] || es[|es| - 1].width <= x.width {
      ListedPrefix(es, r, e, |es|);
    } else {
      var front := es[..|es| - 1];
      ListedInsert(front, x, e);
      ListedPrefix(front, es, e, |front|);
      ListedPrefix(Insert(front, x), r, e, |es|);
    }
  }

  lemma {:induction false} ListedIsRoom(lengths: seq<nat>, s: nat, n: nat)
    requires s < |lengths| && n <= |lengths| && forall i :: 0 <= i < |lengths| ==> lengths[i] <= MAX_BITS
    ensures WidthsOk(Collect(lengths, n))
    ensures ListedBefore(Collect(lengths, n), Entry(s, lengths[s]), |Collect(lengths, n)|) == RoomBefore(lengths, s, n)
  {
    hide Pow2, Insert;
    TotalIsKraft(lengths, n);
    if n > 0 {
      ListedIsRoom(lengths, s, n - 1);
      if lengths[n - 1] > 0 {
        ListedInsert(Collect(lengths, n - 1), Entry(n - 1, lengths[n - 1]), Entry(s, lengths[s]));
      }
    }
  }

  /** In a sorted list the entries before an entry are the ones that come before it. */
  lemma {:induction false} ListedIsStart(es: seq<Entry>, i: nat, n: nat)
    requires WidthsOk(es) && Sorted(es) && i < |es| && n <= |es|
    ensures ListedBefore(es, es[i], n) == Start(es, if n <= i then n else i)
  {
    hide Pow2;
    if n > 0 {
      ListedIsStart(es, i, n - 1);
      if n - 1 < i {
        assert Before(es[n - 1], es[i]);
      } else if i < n - 1 {
        assert Before(es[i], es[n - 1]);
      }
    }
  }

  /** The number of a symbol's codeword is the room taken before it: codewords of one length are consecutive
      numbers in the order of their symbols, and shorter codewords come first. */
  lemma {:induction false} CodewordNumber(lengths: seq<nat>, s: nat)
    requires Acceptable(lengths) && s < |lengths| && lengths[s] > 0
    ensures forall i :: 0 <= i < |lengths| ==> lengths[i] <= MAX_BITS
    ensures MsbVal(Word(lengths, s)) * Pow2(MAX_BITS - lengths[s]) == RoomBefore(lengths, s, |lengths|)
  {
    hide Kraft, RoomBefore, ListedBefore, MsbVal, MsbBits, CodeVal, Pow2, Start;
    AcceptableIff(lengths);
    var es, i := SortedEntries(lengths), IndexOf(lengths, s);
    EntriesShape(lengths);
    ListedIsRoom(lengths, s, |lengths|);
    ListedIsStart(es, i, |es|);
    StartIsCode(es, i);
    StartMono(es, i, |es|);
    CodeFits(es, i);
    MsbValBits(CodeVal(es, i), es[i].width);
  }

  // ----- The fixed codes (section 3.2.6 of RFC 1951) -----

  /** Symbols `a` to `b` of one length that all come before `s`, or all do not. */
  lemma {:induction false} RoomRange(lengths: seq<nat>, s: nat, a: nat, b: nat, w: nat, before: bool)
    requires s < |lengths| && a <= b <= |lengths| && 1 <= w <= MAX_BITS
    requires forall i :: 0 <= i < |lengths| ==> lengths[i] <= MAX_BITS
    requires forall t :: a <= t < b ==> lengths[t] == w && ComesBefore(lengths, t, s) == before
    ensures RoomBefore(lengths, s, b) == RoomBefore(lengths, s, a) + if before then (b - a) * Pow2(MAX_BITS - w) else 0
    decreases b
  {
    hide Pow2, ComesBefore;
    var each := Pow2(MAX_BITS - w);
    if a < b {
      RoomRange(lengths, s, a, b - 1, w, before);
      MulDistributes(b - 1 - a, 1, each);
      assert (b - 1 - a) + 1 == b - a;
    }
  }

  /** The number of a fixed literal/length codeword. */
  ghost function FixedNumber(s: nat): nat
    requires s < 288
  {
    if s <= 143 then 0x30 + s
    else if s <= 255 then 0x190 + (s - 144)
    else if s <= 279 then s - 256
    else 0xC0 + (s - 280)
  }

  lemma {:induction false} FixedRoom(lengths: seq<nat>, s: nat)
    requires lengths == FixedLiteralLengths() && s < 288
    ensures lengths[s] == if s <= 143 then 8 else if s <= 255 then 9 else if s <= 279 then 7 else 8
    ensures RoomBefore(lengths, s, 288) == FixedNumber(s) * Pow2(MAX_BITS - lengths[s])
  {
    hide RoomBefore, Pow2;
    Pow2Values();
    var eight := if s <= 143 then s else if 280 <= s then 144 else if s <= 255 then 144 else 0;
    RoomRange(lengths, s, 0, eight, 8, true);
    RoomRange(lengths, s, eight, 144, 8, false);
    var nine := if 144 <= s <= 255 then s else 144;
    RoomRange(lengths, s, 144, nine, 9, true);
    RoomRange(lengths, s, nine, 256, 9, false);
    var seven := if 256 <= s <= 279 then s else 280;
    RoomRange(lengths, s, 256, seven, 7, true);
    RoomRange(lengths, s, seven, 280, 7, false);
    var last := if 280 <= s then s else if 144 <= s <= 255 then 288 else 280;
    RoomRange(lengths, s, 280, last, 8, true);
    RoomRange(lengths, s, last, 288, 8, false);
    NoRoom(lengths, s);
  }

  lemma {:induction false} NoRoom(lengths: seq<nat>, s: nat)
    requires s < |lengths| && forall i :: 0 <= i < |lengths| ==> lengths[i] <= MAX_BITS
    ensures RoomBefore(lengths, s, 0) == 0
  {}

  /** The fixed literal/length codewords: 00110000 to 10111111, 110010000 to 111111111, 0000000 to 0010111 and
      11000000 to 11000111; the fixed distance codewords are the symbols themselves in five bits. */
  lemma {:induction false} FixedCodewords(s: nat)
    requires s < 288
    ensures Acceptable(FixedLiteralLengths()) && Acceptable(FixedDistanceLengths())
    ensures Word(FixedLiteralLengths(), s)
            == MsbBits(FixedNumber(s), if s <= 143 then 8 else if s <= 255 then 9 else if s <= 279 then 7 else 8)
    ensures s < 30 ==> Word(FixedDistanceLengths(), s) == MsbBits(s, 5)
  {
    hide MsbBits, MsbVal, Word, Acceptable, RoomBefore, Kraft, Pow2, FixedNumber;
    var lit, dist := FixedLiteralLengths(), FixedDistanceLengths();
    FixedLiteralAccepted(lit);
    FixedDistanceAccepted(dist);
    FixedRoom(lit, s);
    WordFromRoom(lit, s, FixedNumber(s));
    if s < 30 {
      RoomRange(dist, s, 0, s, 5, true);
      RoomRange(dist, s, s, 30, 5, false);
      NoRoom(dist, s);
      WordFromRoom(dist, s, s);
    }
  }

  lemma {:induction false} WordFromRoom(lengths: seq<nat>, s: nat, v: nat)
    requires Acceptable(lengths) && s < |lengths| && lengths[s] > 0
    requires forall i :: 0 <= i < |lengths| ==> lengths[i] <= MAX_BITS
    requires RoomBefore(lengths, s, |lengths|) == v * Pow2(MAX_BITS - lengths[s])
    ensures Word(lengths, s) == MsbBits(v, lengths[s])
  {
    hide MsbBits, MsbVal, Word, RoomBefore, Pow2;
    CodewordNumber(lengths, s);
    MulCancel(MsbVal(Word(lengths, s)), v, Pow2(MAX_BITS - lengths[s]));
    MsbBitsVal(Word(lengths, s));
  }

  // ----- The symbol tables (sections 3.2.5 and 3.2.7 of RFC 1951) -----

  /** Length symbols: eight of one length each, then four for each number of extra bits, and 258 by itself. */
  lemma {:induction false} LengthRule(i: nat)
    requires i < 29
    ensures i < 8 ==> LENGTH_TABLE[i] == (3 + i, 0)
    ensures 8 <= i < 28 ==> LENGTH_TABLE[i] == (3 + (4 + i % 4) * Pow2(i / 4 - 1), i / 4 - 1)
    ensures i == 28 ==> LENGTH_TABLE[i] == (258, 0)
  {
    Pow2Values();
    if i < 8 {
      assert i == 0 || i == 1 || i == 2 || i == 3 || i == 4 || i == 5 || i == 6 || i == 7;
    } else if i < 16 {
      assert i == 8 || i == 9 || i == 10 || i == 11 || i == 12 || i == 13 || i == 14 || i == 15;
    } else if i < 24 {
      assert i == 16 || i == 17 || i == 18 || i == 19 || i == 20 || i == 21 || i == 22 || i == 23;
    } else {
      assert i == 24 || i == 25 || i == 26 || i == 27 || i == 28;
    }
  }

  /** Distance symbols: four of one distance each, then two for each number of extra bits. */
  lemma {:induction false} DistanceRule(i: nat)
    requires i < 30
    ensures i < 4 ==> DISTANCE_TABLE[i] == (1 + i, 0)
    ensures 4 <= i ==> DISTANCE_TABLE[i] == (1 + (2 + i % 2) * Pow2(i / 2 - 1), i / 2 - 1)
  {
    Pow2Values();
    if i < 8 {
      assert i == 0 || i == 1 || i == 2 || i == 3 || i == 4 || i == 5 || i == 6 || i == 7;
    } else if i < 16 {
      assert i == 8 || i == 9 || i == 10 || i == 11 || i == 12 || i == 13 || i == 14 || i == 15;
    } else if i < 24 {
      assert i == 16 || i == 17 || i == 18 || i == 19 || i == 20 || i == 21 || i == 22 || i == 23;
    } else {
      assert i == 24 || i == 25 || i == 26 || i == 27 || i == 28 || i == 29;
    }
  }

  /** Code-length symbols are sent repeats first, then 0, then outwards from 8: 8, 7, 9, 6, 10 and so on. */
  lemma {:induction false} OrderRule(i: nat)
    requires i < 19
    ensures i < 3 ==> OrderSlot(i) == 16 + i
    ensures i == 3 ==> OrderSlot(i) == 0
    ensures 4 <= i ==> OrderSlot(i) == if i % 2 == 0 then 8 + (i - 4) / 2 else 8 - (i - 3) / 2
  {
    if i < 8 {
      assert i == 0 || i == 1 || i == 2 || i == 3 || i == 4 || i == 5 || i == 6 || i == 7;
    } else if i < 16 {
      assert i == 8 || i == 9 || i == 10 || i == 11 || i == 12 || i == 13 || i == 14 || i == 15;
    } else {
      assert i == 16 || i == 17 || i == 18;
    }
  }

  // ----- CRC-32 -----

  /** x^32 + x^26 + x^23 + x^22 + x^16 + x^12 + x^11 + x^10 + x^8 + x^7 + x^5 + x^4 + x^2 + x + 1, the highest
      power aside, with the coefficient of x^31 lowest. */
  lemma {:induction false} PolynomialExponents()
    ensures Crc.POLYNOMIAL ==
              (1 << 5) | (1 << 8) | (1 << 9) | (1 << 15) | (1 << 19) | (1 << 20) | (1 << 21) | (1 << 23) | (1 << 24)
              | (1 << 26) | (1 << 27) | (1 << 29) | (1 << 30) | (1 << 31)
  {}

  lemma {:induction false} EightOnes(c: bv32)
    ensures Crc.Steps(c, 8) ==
              Crc.Step(Crc.Step(Crc.Step(Crc.Step(Crc.Step(Crc.Step(Crc.Step(Crc.Step(c))))))))
  {
    hide Crc.Step;
    Crc.StepsAdd(c, 4, 4);
  }

  lemma {:induction false} OnesOut()
    ensures Crc.Steps(0xFFFF_FFFF, 32) == 0xDEBB_20E3
  {
    var a := Crc.Steps(0xFFFF_FFFF, 8);
    EightOnes(0xFFFF_FFFF);
    assert a == 0x2DFD_1072;
    var b := Crc.Steps(a, 8);
    EightOnes(a);
    assert b == 0xBE26_ED00;
    var c := Crc.Steps(b, 8);
    EightOnes(b);
    assert c == 0x00BE_26ED;
    EightOnes(c);
    Crc.StepsAdd(0xFFFF_FFFF, 8, 24);
    Crc.StepsAdd(a, 8, 16);
    Crc.StepsAdd(b, 8, 8);
  }

  /** The checksum of nothing is zero. */
  lemma {:induction false} ChecksumOfNothing()
    ensures Crc.Checksum([]) == 0
  {}

  /** Data with its own checksum behind it, least significant byte first, always has the same checksum. */
  lemma {:induction false} ChecksumResidue(data: seq<byte>)
    ensures Crc.Checksum(data + Crc.LeBytes(Crc.Checksum(data))) == 0x2144_DF1C
  {
    hide Crc.LeBytes, Crc.AddBytes;
    var tail := Crc.LeBytes(Crc.Checksum(data));
    Crc.AddBytesConcat(0xFFFF_FFFF, data, tail);
    ComplementBehind(Crc.AddBytes(0xFFFF_FFFF, data), Crc.Checksum(data));
    LastResidue(Crc.AddBytes(0xFFFF_FFFF, data + tail));
  }

  lemma {:induction false} ComplementBehind(c: bv32, k: bv32)
    requires k == !c
    ensures Crc.AddBytes(c, Crc.LeBytes(k)) == 0xDEBB_20E3
  {
    hide Crc.Steps, Crc.U32, Crc.LeBytes, Crc.Plus, Crc.AddBytes;
    Crc.FourBytes(c, Crc.LeBytes(k));
    Crc.LeRoundTrip(k);
    AllOnes(c, k);
    OnesOut();
  }

  lemma {:induction false} LastResidue(r: bv32)
    requires r == 0xDEBB_20E3
    ensures !r == 0x2144_DF1C
  {}

  lemma {:induction false} AllOnes(c: bv32, k: bv32)
    requires k == !c
    ensures Crc.Plus(c, k) == 0xFFFF_FFFF
  {}

  // ----- Adler-32 -----

  /** `n` has no divisor from `d` up to `limit`. */
  predicate NoDivisor(n: nat, d: nat, limit: nat)
    decreases limit - d
  {
    d >= limit || (d > 0 && n % d != 0 && NoDivisor(n, d + 1, limit))
  }

  lemma {:induction false} NoDivisorAt(n: nat, d: nat, limit: nat, k: nat)
    requires NoDivisor(n, d, limit) && d <= k < limit
    ensures k > 0 && n % k != 0
    decreases limit - d
  {
    if d < k { NoDivisorAt(n, d + 1, limit, k); }
  }

  lemma {:induction false} FirstQuarter(k: nat)
    requires k < 4
    ensures NoDivisor(65521, if k == 0 then 2 else 16 * k, 16 + 16 * k)
  {
    if k == 0 { assert NoDivisor(65521, 9, 16) && NoDivisor(65521, 2, 16); }
    else if k == 1 { assert NoDivisor(65521, 24, 32) && NoDivisor(65521, 16, 32); }
    else if k == 2 { assert NoDivisor(65521, 40, 48) && NoDivisor(65521, 32, 48); }
    else if k == 3 { assert NoDivisor(65521, 56, 64) && NoDivisor(65521, 48, 64); }
  }

  lemma {:induction false} SecondQuarter(k: nat)
    requires k < 4
    ensures NoDivisor(65521, 64 + 16 * k, 80 + 16 * k)
  {
    if k == 0 { assert NoDivisor(65521, 72, 80) && NoDivisor(65521, 64, 80); }
    else if k == 1 { assert NoDivisor(65521, 88, 96) && NoDivisor(65521, 80, 96); }
    else if k == 2 { assert NoDivisor(65521, 104, 112) && NoDivisor(65521, 96, 112); }
    else if k == 3 { assert NoDivisor(65521, 120, 128) && NoDivisor(65521, 112, 128); }
  }

  lemma {:induction false} ThirdQuarter(k: nat)
    requires k < 4
    ensures NoDivisor(65521, 128 + 16 * k, 144 + 16 * k)
  {
    if k == 0 { assert NoDivisor(65521, 136, 144) && NoDivisor(65521, 128, 144); }
    else if k == 1 { assert NoDivisor(65521, 152, 160) && NoDivisor(65521, 144, 160); }
    else if k == 2 { assert NoDivisor(65521, 168, 176) && NoDivisor(65521, 160, 176); }
    else if k == 3 { assert NoDivisor(65521, 184, 192) && NoDivisor(65521, 176, 192); }
  }

  lemma {:induction false} LastQuarter(k: nat)
    requires k < 4
    ensures NoDivisor(65521, 192 + 16 * k, 208 + 16 * k)
  {
    if k == 0 { assert NoDivisor(65521, 200, 208) && NoDivisor(65521, 192, 208); }
    else if k == 1 { assert NoDivisor(65521, 216, 224) && NoDivisor(65521, 208, 224); }
    else if k == 2 { assert NoDivisor(65521, 232, 240) && NoDivisor(65521, 224, 240); }
    else if k == 3 { assert NoDivisor(65521, 248, 256) && NoDivisor(65521, 240, 256); }
  }

  lemma {:induction false} NoSmallDivisor(k: nat)
    requires 2 <= k < 256
    ensures 65521 % k != 0
  {
    var q := k / 16;
    if q < 4 { FirstQuarter(q); NoDivisorAt(65521, if q == 0 then 2 else 16 * q, 16 * q + 16, k); }
    else if q < 8 { SecondQuarter(q - 4); NoDivisorAt(65521, 16 * q, 16 * q + 16, k); }
    else if q < 12 { ThirdQuarter(q - 8); NoDivisorAt(65521, 16 * q, 16 * q + 16, k); }
    else { LastQuarter(q - 12); NoDivisorAt(65521, 16 * q, 16 * q + 16, k); }
  }

  ghost predicate Prime(n: nat) {
    n > 1 && forall a: nat, b: nat :: a > 1 && b > 1 ==> Product(a, b) != n
  }

  ghost function Product(a: nat, b: nat): nat { a * b }

  lemma {:induction false} SmallFactor(a: nat, b: nat, n: nat)
    requires 1 < a <= b && a * b == n < 65536
    ensures a < 256 && n % a == 0
  {
    if a >= 256 { Squares(a, b); }
    DivModUnique(n, a, b, 0);
  }

  lemma {:induction false} Squares(a: nat, b: nat)
    requires 256 <= a <= b
    ensures a * b >= 65536
  {
    MulMono(256, 256, b);
    MulMono(b, 256, a);
  }

  /** The modulus is the largest prime below 65536. */
  lemma {:induction false} ModulusIsLargestPrime(n: nat)
    ensures Prime(Adler.BASE)
    ensures Adler.BASE < n < 65536 ==> !Prime(n)
  {
    forall a: nat, b: nat | a > 1 && b > 1 ensures Product(a, b) != 65521 {
      if a * b == 65521 {
        MulSwap(a, b);
        var least, most := if a <= b then a else b, if a <= b then b else a;
        SmallFactor(least, most, 65521);
        NoSmallDivisor(least);
        assert false;
      }
    }
    if 65521 < n < 65536 {
      Composite(n);
    }
  }

  lemma {:induction false} MulSwap(a: nat, b: nat)
    ensures a * b == b * a
  {}

  lemma {:induction false} Composite(n: nat)
    requires 65521 < n < 65536
    ensures !Prime(n)
  {
    if n % 2 == 0 { assert Product(2, n / 2) == n; }
    else if n % 3 == 0 { assert Product(3, n / 3) == n; }
    else if n == 65525 { assert Product(5, 13105) == n; }
    else if n == 65527 { assert Product(7, 9361) == n; }
    else if n == 65531 { assert Product(19, 3449) == n; }
    else { assert n == 65533 && Product(13, 5041) == n; }
  }

  // ----- The match finder's hash -----

  lemma {:induction false} XorBit(x: nat, y: nat, i: nat)
    ensures Bit(Xor(x, y), i) == (Bit(x, i) != Bit(y, i))
  {
    hide Bit, Xor;
    XorParts(x, y);
    if x == 0 && y == 0 {
      ZeroBit(i);
    } else if i == 0 {
      LowBit(x);
      LowBit(y);
      LowBit(Xor(x, y));
    } else {
      HalfBit(x, i - 1);
      HalfBit(y, i - 1);
      HalfBit(Xor(x, y), i - 1);
      XorBit(x / 2, y / 2, i - 1);
    }
  }

  lemma {:induction false} XorParts(x: nat, y: nat)
    ensures x == 0 && y == 0 ==> Xor(x, y) == 0
    ensures Xor(x, y) / 2 == Xor(x / 2, y / 2) && (Xor(x, y) % 2 == 1 <==> x % 2 != y % 2)
  {}

  lemma {:induction false} LowBit(v: nat)
    ensures Bit(v, 0) == (v % 2 == 1)
  {
    DivModUnique(v, 1, v, 0);
  }

  lemma {:induction false} ZeroBit(i: nat)
    ensures !Bit(0, i)
  {
    DivModUnique(0, Pow2(i), 0, 0);
  }

  lemma {:induction false} ShlBit(v: nat, k: nat, i: nat)
    ensures Bit(Shl(v, k), i) == (i >= k && Bit(v, i - k))
    decreases k
  {
    if k > 0 {
      ShlHalf(v, k);
      if i > 0 {
        ShlBit(v, k - 1, i - 1);
        HalfBit(Shl(v, k), i - 1);
      }
    }
  }

  lemma {:induction false} ShlHalf(v: nat, k: nat)
    requires k > 0
    ensures Shl(v, k) == 2 * Shl(v, k - 1)
  {
    MulAssoc(v, 2, Pow2(k - 1));
    MulAssoc(2, v, Pow2(k - 1));
  }

  lemma {:induction false} MaskBit(v: nat, w: nat, i: nat)
    requires i < w
    ensures Bit(Mask(v, w), i) == Bit(v, i)
  {
    ToBitsSplit(v, w, 0);
    FieldOrder(v, w, i);
    FieldOrder(Mask(v, w), w, i);
    assert ToBits(v, w + 0) == ToBits(Mask(v, w), w);
  }

  lemma {:induction false} HighBit(v: nat, i: nat)
    requires v < 256 && i >= 8
    ensures !Bit(v, i)
  {
    Pow2Values();
    Pow2Mono(8, i);
    DivModUnique(v, Pow2(i), 0, v);
  }

  /** The hash of three bytes: the bits of the first from bit 10 up, of the second from bit 5 up and of the third
      from bit 0 up, added without carry and cut to 15 bits. */
  lemma {:induction false} HashBits(input: seq<byte>, pos: nat, i: nat)
    requires pos + 3 <= |input| && i < 15
    ensures Hash3(input, pos) < 32768
    ensures Bit(Hash3(input, pos), i) ==
              ((i >= 10 && Bit(input[pos], i - 10))
               != ((i >= 5 && Bit(input[pos + 1], i - 5)) != Bit(input[pos + 2], i)))
  {
    hide Bit, Mask, Xor, Shl, Pow2;
    var a, b, c := Shl(input[pos] as int, 10), Shl(input[pos + 1] as int, 5), input[pos + 2] as int;
    Pow2Values();
    MaskBit(Xor(Xor(a, b), c), 15, i);
    XorBit(Xor(a, b), c, i);
    XorBit(a, b, i);
    ShlBit(input[pos] as int, 10, i);
    ShlBit(input[pos + 1] as int, 5, i);
  }
}
